/**
  The integer side of the attack's text statistics
  (`SimpleEnigmaMachineAttack.countCommonTrigrams` and the counting part of
  `calculateIoC`). The floating-point formulas that combine them into a
  fitness are not modelled; the index of coincidence is computed here as an
  exact ratio of integers.
 */
module Statistics {
  import opened Alphabet

  // ---------------------------------------------------------------------
  // Trigrams
  // ---------------------------------------------------------------------

  /** `COMMON_TRIGRAMS`, in the order the outer loop visits them. */
  const CommonTrigrams: seq<string> := ["THE", "AND", "ING", "ENT", "ION", "HER", "FOR", "THA", "NTH", "INT"]

  /** `t` occurs in `text` starting at position `i`. */
  predicate OccursAt(text: string, t: string, i: int) {
    0 <= i && i + |t| <= |text| && text[i..i + |t|] == t
  }

  /** Reference count: the start positions `from`, `from + 1`, ... at which `t` occurs, overlaps included. */
  function Occurrences(text: string, t: string, from: nat): nat
    decreases |text| + 1 - from
  {
    if from > |text| then 0
    else (if OccursAt(text, t, from) then 1 else 0) + Occurrences(text, t, from + 1)
  }

  /** Java's `text.indexOf(t, from)` for a non-empty `t`: the first occurrence at or after `from`, or -1. */
  function IndexOfFrom(text: string, t: string, from: nat): (r: int)
    requires |t| > 0
    ensures r == -1 || (from <= r && OccursAt(text, t, r))
    ensures forall i :: from <= i && (r == -1 || i < r) ==> !OccursAt(text, t, i)
    decreases |text| + 1 - from
  {
    if from > |text| then -1
    else if OccursAt(text, t, from) then from
    else IndexOfFrom(text, t, from + 1)
  }

  /** Nothing occurs in a stretch `indexOf` skipped, so the count restarts at the next hit. */
  lemma {:induction false} OccurrencesSkip(text: string, t: string, from: nat, to: nat)
    requires from <= to
    requires forall i :: from <= i < to ==> !OccursAt(text, t, i)
    ensures Occurrences(text, t, from) == Occurrences(text, t, to)
    decreases (to as int) - (from as int)
  {
    if from < to {
      OccurrencesSkip(text, t, from + 1, to);
    }
  }

  /** Positions past the last possible start hold no occurrence. */
  lemma {:induction false} OccurrencesPastEnd(text: string, t: string, from: nat)
    requires |t| > 0 && from + |t| > |text|
    ensures Occurrences(text, t, from) == 0
    decreases |text| + 1 - from
  {
    if from <= |text| {
      OccurrencesPastEnd(text, t, from + 1);
    }
  }

  /** The inner `while` of `countCommonTrigrams`: jump to the next hit, count it, search again one place further. */
  method CountOccurrences(text: string, t: string) returns (count: nat)
    requires |t| > 0
    ensures count == Occurrences(text, t, 0)
  {
    count := 0;
    var index: nat := 0;
    while true
      invariant index <= |text| + 1
      invariant count + Occurrences(text, t, index) == Occurrences(text, t, 0)
      decreases |text| + 1 - index
    {
      var k := IndexOfFrom(text, t, index);
      if k == -1 {
        OccurrencesSkip(text, t, index, |text| + 1);
        break;
      }
      OccurrencesSkip(text, t, index, k);
      count := count + 1;
      index := k + 1;
    }
  }

  /** Occurrences of the first `k` common trigrams, summed. */
  function TrigramHits(u: string, k: nat): nat
    requires k <= |CommonTrigrams|
  {
    if k == 0 then 0 else TrigramHits(u, k - 1) + Occurrences(u, CommonTrigrams[k - 1], 0)
  }

  /** `countCommonTrigrams`: upper-case, then add up the overlapping occurrences of each trigram. */
  method CountCommonTrigrams(text: string) returns (count: nat)
    requires AllAscii(text)
    ensures count == TrigramHits(ToUpper(text), |CommonTrigrams|)
  {
    var u := ToUpper(text);
    count := 0;
    for k := 0 to |CommonTrigrams|
      invariant count == TrigramHits(u, k)
    {
      var hits := CountOccurrences(u, CommonTrigrams[k]);
      count := count + hits;
    }
  }

  /** A text shorter than a trigram scores no hit. */
  lemma {:induction false} ShortTextNoTrigrams(u: string, k: nat)
    requires |u| < 3 && k <= |CommonTrigrams|
    ensures TrigramHits(u, k) == 0
  {
    if k > 0 {
      ShortTextNoTrigrams(u, k - 1);
      OccurrencesPastEnd(u, CommonTrigrams[k - 1], 0);
    }
  }

  /** The windows of "THETHE" are THE, HET, ETH, THE: any other three letters never occur in it. */
  lemma NotInTheThe(t: string)
    requires |t| == 3 && t != "THE" && t != "HET" && t != "ETH"
    ensures Occurrences("THETHE", t, 0) == 0
  {
    var u := "THETHE";
    assert u[0..3] == "THE" && u[1..4] == "HET" && u[2..5] == "ETH" && u[3..6] == "THE";
    OccurrencesSkip(u, t, 0, 4);
    OccurrencesPastEnd(u, t, 4);
  }

  /** "THE" starts at 0 and, overlapping nothing, again at 3. */
  lemma TheInTheThe()
    ensures Occurrences("THETHE", "THE", 0) == 2
  {
    var u := "THETHE";
    assert u[0..3] == "THE" && u[1..4] == "HET" && u[2..5] == "ETH" && u[3..6] == "THE";
    OccurrencesPastEnd(u, "THE", 4);
    assert Occurrences(u, "THE", 3) == 1;
    assert Occurrences(u, "THE", 1) == 1;
  }

  /** Overlaps count: "THETHE" holds "THE" twice and no other common trigram. */
  lemma TheTwice()
    ensures TrigramHits("THETHE", |CommonTrigrams|) == 2
  {
    TheInTheThe();
    assert TrigramHits("THETHE", 1) == 2;
    for k := 1 to |CommonTrigrams|
      invariant TrigramHits("THETHE", k) == 2
    {
      NotInTheThe(CommonTrigrams[k]);
    }
  }

  // ---------------------------------------------------------------------
  // Letter frequencies and the index of coincidence
  // ---------------------------------------------------------------------

  /** How often each of the 26 letters occurs. */
  function Frequencies(u: string): seq<int> {
    seq(Size, k requires 0 <= k < Size => multiset(u)[LetterAt(k)])
  }

  /** `g` applied to every element and added up, first elements first, as the loops of `calculateIoC` add. */
  function Total(f: seq<int>, g: int -> int): int {
    if |f| == 0 then 0 else Total(f[..|f| - 1], g) + g(f[|f| - 1])
  }

  /** Adding up two pieces separately gives the total of the whole. */
  lemma {:induction false} TotalAppend(f: seq<int>, h: seq<int>, g: int -> int)
    ensures Total(f + h, g) == Total(f, g) + Total(h, g)
    decreases |h|
  {
    if |h| > 0 {
      var n := |h| - 1;
      assert (f + h)[..|f + h| - 1] == f + h[..n];
      TotalAppend(f, h[..n], g);
    } else {
      assert f + h == f;
    }
  }

  /** `n` equal elements add up to `n` times one of them. */
  lemma {:induction false} TotalConstant(n: nat, v: int, g: int -> int)
    ensures Total(seq(n, k => v), g) == n * g(v)
  {
    if n > 0 {
      assert seq(n, k => v)[..n - 1] == seq(n - 1, k => v);
      TotalConstant(n - 1, v, g);
    }
  }

  /** Sum of a sequence. */
  function Sum(f: seq<int>): int {
    Total(f, x => x)
  }

  /** Adding one at one index adds one to the sum. */
  lemma {:induction false} SumIncrement(f: seq<int>, k: int)
    requires 0 <= k < |f|
    ensures Sum(f[k := f[k] + 1]) == Sum(f) + 1
    decreases |f|
  {
    var g := f[k := f[k] + 1];
    var n := |f| - 1;
    assert g[..n] == if k < n then f[..n][k := f[k] + 1] else f[..n];
    if k < n {
      SumIncrement(f[..n], k);
    }
  }

  /** The 26 counts of an upper-cased text add up to its number of letters. */
  lemma {:induction false} FrequenciesSum(u: string)
    requires IsUpperCased(u)
    ensures Sum(Frequencies(u)) == LetterCount(u)
    decreases |u|
  {
    if |u| == 0 {
      assert Frequencies(u) == seq(Size, k => 0);
      TotalConstant(Size, 0, x => x);
    } else {
      var c, rest := u[0], u[1..];
      assert u == [c] + rest;
      FrequenciesSum(rest);
      if IsUpper(c) {
        var k := Index(c);
        assert Frequencies(u) == Frequencies(rest)[k := Frequencies(rest)[k] + 1] by {
          forall j | 0 <= j < Size
            ensures Frequencies(u)[j] == Frequencies(rest)[k := Frequencies(rest)[k] + 1][j]
          {
            IndexOfLetterAt(j);
          }
        }
        SumIncrement(Frequencies(rest), k);
      } else {
        assert Frequencies(u) == Frequencies(rest) by {
          forall j | 0 <= j < Size
            ensures Frequencies(u)[j] == Frequencies(rest)[j]
          {
          }
        }
      }
    }
  }

  /** Letters counted one character at a time, as the loop of `calculateIoC` does. */
  lemma {:induction false} LetterCountAppend(s: string, c: char)
    ensures LetterCount(s + [c]) == LetterCount(s) + (if IsLetter(c) then 1 else 0)
    decreases |s|
  {
    if |s| > 0 {
      assert (s + [c])[1..] == s[1..] + [c];
      LetterCountAppend(s[1..], c);
    }
  }

  /** The counting loop of `calculateIoC`: one counter per letter and the number of letters. */
  method LetterFrequencies(text: string) returns (freq: seq<int>, total: int)
    requires AllAscii(text)
    ensures freq == Frequencies(ToUpper(text))
    ensures total == LetterCount(text)
    ensures Sum(freq) == total
  {
    var u := ToUpper(text);
    ToUpperIsUpperCased(text);
    LetterCountToUpper(text);
    freq := seq(Size, k => 0);
    total := 0;
    for i := 0 to |u|
      invariant freq == Frequencies(u[..i])
      invariant total == LetterCount(u[..i])
    {
      var c := u[i];
      assert u[..i + 1] == u[..i] + [c];
      LetterCountAppend(u[..i], c);
      if IsLetter(c) {
        var k := Index(c);
        ghost var before := freq;
        freq := freq[k := freq[k] + 1];
        forall j | 0 <= j < Size
          ensures freq[j] == Frequencies(u[..i + 1])[j]
        {
          IndexOfLetterAt(j);
        }
        total := total + 1;
      } else {
        forall j | 0 <= j < Size
          ensures freq[j] == Frequencies(u[..i + 1])[j]
        {
        }
      }
    }
    assert u[..|u|] == u;
    FrequenciesSum(u);
  }

  /** Every term `x * (x - 1)` is at least 0, and it is 0 for a count of 0 or 1. */
  lemma {:induction false} PairProducts(f: seq<int>)
    ensures 0 <= Total(f, x => x * (x - 1))
    ensures (forall i :: 0 <= i < |f| ==> 0 <= f[i] <= 1) ==> Total(f, x => x * (x - 1)) == 0
    decreases |f|
  {
    if |f| > 0 {
      var n := |f| - 1;
      PairProducts(f[..n]);
      var x := f[n];
      if x <= 0 {
        assert x * (x - 1) == (-x) * (1 - x);
      }
    }
  }

  /**
    The sum the second loop of `calculateIoC` builds: the letter pairs drawn
    from equal letters. It is never negative, and a text with no letter
    twice has none.
   */
  function Coincidences(f: seq<int>): (r: int)
    ensures 0 <= r
    ensures (forall i :: 0 <= i < |f| ==> 0 <= f[i] <= 1) ==> r == 0
  {
    PairProducts(f);
    Total(f, x => x * (x - 1))
  }

  /** Equal-letter pairs are some of all letter pairs: 0 <= sum f(f-1) <= n(n-1) for counts summing to n. */
  lemma {:induction false} CoincidencesBound(f: seq<int>)
    requires forall i :: 0 <= i < |f| ==> f[i] >= 0
    ensures 0 <= Sum(f)
    ensures 0 <= Coincidences(f) <= Sum(f) * (Sum(f) - 1)
    decreases |f|
  {
    if |f| > 0 {
      var n := |f| - 1;
      CoincidencesBound(f[..n]);
      var a, b := f[n], Sum(f[..n]);
      assert Sum(f) == a + b;
      assert (a + b) * (a + b - 1) == a * (a - 1) + b * (b - 1) + 2 * a * b;
      assert a * b >= 0;
      assert a * (a - 1) >= 0;
    }
  }

  /** The index of coincidence of the letter counts `f`, computed exactly; 0 below two letters. */
  function IoC(f: seq<int>): (r: real)
    requires forall i :: 0 <= i < |f| ==> f[i] >= 0
    ensures 0.0 <= r <= 1.0
    ensures Sum(f) <= 1 ==> r == 0.0
  {
    var n := Sum(f);
    if n > 1 then
      CoincidencesBound(f);
      var num, den := Coincidences(f), n * (n - 1);
      assert 0 <= num <= den;
      num as real / den as real
    else 0.0
  }

  /** `calculateIoC` with exact arithmetic: the probability that two letters drawn from the text agree. */
  method CalculateIoC(text: string) returns (r: real)
    requires AllAscii(text)
    ensures 0.0 <= r <= 1.0
    ensures LetterCount(text) <= 1 ==> r == 0.0
    ensures r == IoC(Frequencies(ToUpper(text)))
  {
    var freq, total := LetterFrequencies(text);
    var sum := 0;
    for k := 0 to |freq|
      invariant sum == Coincidences(freq[..k])
    {
      assert freq[..k + 1][..k] == freq[..k];
      sum := sum + freq[k] * (freq[k] - 1);
    }
    assert freq[..|freq|] == freq;
    if total > 1 {
      r := sum as real / (total * (total - 1)) as real;
    } else {
      r := 0.0;
    }
    assert r == IoC(freq);
  }

  // ---------------------------------------------------------------------
  // calculateIoC as written: 32-bit int products
  // ---------------------------------------------------------------------

  const TwoTo31: int := 0x8000_0000
  const TwoTo32: int := 0x1_0000_0000

  /** Java `int` arithmetic: the value modulo 2^32, read as a signed 32-bit number. */
  function Wrap32(x: int): (r: int)
    ensures -TwoTo31 <= r < TwoTo31
    ensures (x - r) % TwoTo32 == 0
    ensures -TwoTo31 <= x < TwoTo31 ==> r == x
  {
    (x + TwoTo31) % TwoTo32 - TwoTo31
  }

  /** The largest count whose `freq * (freq - 1)` still fits in an `int`. */
  const LargestSafeCount: int := 46341

  /** `x * (x - 1)` fits in an `int` for `0 <= x <= 46341`. */
  lemma PairsFit(x: int)
    requires 0 <= x <= LargestSafeCount
    ensures 0 <= x * (x - 1) < TwoTo31
  {
    if x > 0 {
      var a, b := LargestSafeCount - x, x - 1;
      assert 0 <= a * b;
      assert x * (x - 1) == 46341 * b - a * b;
      assert 46341 * b <= 46341 * 46340;
    }
  }

  /** Without a count above 46341 no product wraps, so the sum as written is the exact one. */
  lemma {:induction false} CoincidencesAsWrittenExact(f: seq<int>)
    requires forall i :: 0 <= i < |f| ==> 0 <= f[i] <= LargestSafeCount
    ensures Total(f, x => Wrap32(x * (x - 1))) == Coincidences(f)
    decreases |f|
  {
    if |f| > 0 {
      var n := |f| - 1;
      CoincidencesAsWrittenExact(f[..n]);
      PairsFit(f[n]);
    }
  }

  /** The second loop as written: each `freq * (freq - 1)` is an `int` product. */
  function CoincidencesAsWritten(f: seq<int>): (r: int)
    ensures (forall i :: 0 <= i < |f| ==> 0 <= f[i] <= LargestSafeCount) ==> r == Coincidences(f)
  {
    if forall i :: 0 <= i < |f| ==> 0 <= f[i] <= LargestSafeCount then
      CoincidencesAsWrittenExact(f);
      Total(f, x => Wrap32(x * (x - 1)))
    else
      Total(f, x => Wrap32(x * (x - 1)))
  }

  /** A count is at most the sum of all counts. */
  lemma {:induction false} CountBelowSum(f: seq<int>, i: int)
    requires forall j :: 0 <= j < |f| ==> f[j] >= 0
    requires 0 <= i < |f|
    ensures f[i] <= Sum(f)
    decreases |f|
  {
    var n := |f| - 1;
    CoincidencesBound(f[..n]);
    if i < n {
      CountBelowSum(f[..n], i);
    }
  }

  /**
    The return statement as written: `totalChars * (totalChars - 1)` is an
    `int` product too. Up to 46341 letters nothing wraps and the value is
    the exact index.
   */
  function IoCAsWritten(f: seq<int>, n: int): (r: real)
    requires n <= 1 || Wrap32(n * (n - 1)) != 0
    ensures n <= 1 ==> r == 0.0
    ensures (forall i :: 0 <= i < |f| ==> f[i] >= 0) && Sum(f) == n && n <= LargestSafeCount ==> r == IoC(f)
  {
    if n > 1 then
      if (forall i :: 0 <= i < |f| ==> f[i] >= 0) && Sum(f) == n && n <= LargestSafeCount then
        forall i | 0 <= i < |f|
          ensures f[i] <= LargestSafeCount
        {
          CountBelowSum(f, i);
        }
        PairsFit(n);
        CoincidencesAsWritten(f) as real / Wrap32(n * (n - 1)) as real
      else
        CoincidencesAsWritten(f) as real / Wrap32(n * (n - 1)) as real
    else 0.0
  }

  /** The counts of a text of 46342 letters: 1783 of each of A..J and 1782 of each of K..Z. */
  const OverflowCounts: seq<int> := seq(10, k => 1783) + seq(16, k => 1782)

  /** The alphabet repeated `k` times. */
  function Repeat(s: string, k: nat): string {
    if k == 0 then [] else Repeat(s, k - 1) + s
  }

  /** A text that reaches the overflow: the alphabet 1782 times, then "ABCDEFGHIJ". */
  const OverflowText: string := Repeat(Letters, 1782) + Letters[..10]

  /** Repeating a string repeats each character's count. */
  lemma {:induction false} RepeatCount(s: string, k: nat, c: char)
    ensures multiset(Repeat(s, k))[c] == k * multiset(s)[c]
  {
    if k > 0 {
      RepeatCount(s, k - 1, c);
      var m := multiset(s)[c];
      assert multiset(Repeat(s, k)) == multiset(Repeat(s, k - 1)) + multiset(s);
      assert k * m == (k - 1) * m + m;
    }
  }

  /** A repetition of capital letters is capital letters. */
  lemma {:induction false} RepeatUpper(s: string, k: nat)
    requires forall i :: 0 <= i < |s| ==> IsUpper(s[i])
    ensures forall i :: 0 <= i < |Repeat(s, k)| ==> IsUpper(Repeat(s, k)[i])
    ensures |Repeat(s, k)| == k * |s|
  {
    if k > 0 {
      RepeatUpper(s, k - 1);
      var front := Repeat(s, k - 1);
      assert forall i :: 0 <= i < |front| + |s| ==> (front + s)[i] == if i < |front| then front[i] else s[i - |front|];
    }
  }

  /** The first `n` letters of the alphabet name each of those letters once and no other. */
  lemma LettersCount(n: int, k: int)
    requires 0 <= n <= Size && 0 <= k < Size
    ensures multiset(Letters[..n])[LetterAt(k)] == if k < n then 1 else 0
  {
    var c := LetterAt(k);
    assert forall j :: 0 <= j < Size ==> Letters[j] == LetterAt(j);
    if k < n {
      assert Letters[..n] == Letters[..k] + [c] + Letters[k + 1..n];
      assert c !in Letters[..k] && c !in Letters[k + 1..n];
    } else {
      assert c !in Letters[..n];
    }
  }

  /** The overflow text is upper-case letters only, and its counts are `OverflowCounts`. */
  lemma OverflowTextCounts()
    ensures |OverflowText| == 46342
    ensures AllAscii(OverflowText)
    ensures ToUpper(OverflowText) == OverflowText
    ensures Frequencies(OverflowText) == OverflowCounts
    ensures LetterCount(OverflowText) == 46342
  {
    var t := OverflowText;
    var body, tail := Repeat(Letters, 1782), Letters[..10];
    RepeatUpper(Letters, 1782);
    assert forall i :: 0 <= i < |t| ==> t[i] == if i < |body| then body[i] else tail[i - |body|];
    assert forall i :: 0 <= i < |t| ==> IsUpper(t[i]);
    forall k | 0 <= k < Size
      ensures Frequencies(t)[k] == OverflowCounts[k]
    {
      RepeatCount(Letters, 1782, LetterAt(k));
      LettersCount(Size, k);
      LettersCount(10, k);
      assert Letters[..Size] == Letters;
      assert multiset(t) == multiset(body) + multiset(tail);
    }
    AllLettersCount(t);
  }

  /** A string of capital letters counts all its characters as letters. */
  lemma {:induction false} AllLettersCount(s: string)
    requires forall i :: 0 <= i < |s| ==> IsUpper(s[i])
    ensures LetterCount(s) == |s|
    decreases |s|
  {
    if |s| > 0 {
      AllLettersCount(s[1..]);
    }
  }

  /**
    The overflow: with 46342 letters `totalChars * (totalChars - 1)` is
    2147534622, past the `int` range, and wraps to a negative number, so
    the index of coincidence as written is negative; the exact one lies in [0, 1].
   */
  lemma IoCOverflow()
    ensures Sum(OverflowCounts) == 46342
    ensures Wrap32(46342 * 46341) == -2147432674
    ensures CoincidencesAsWritten(OverflowCounts) == 82552932
    ensures IoCAsWritten(OverflowCounts, 46342) < 0.0
    ensures 0.0 < IoC(OverflowCounts) <= 1.0
  {
    var a, b := seq(10, k => 1783), seq(16, k => 1782);
    var id, pairs, wrapped := x => x, x => x * (x - 1), x => Wrap32(x * (x - 1));
    TotalAppend(a, b, id);
    TotalConstant(10, 1783, id);
    TotalConstant(16, 1782, id);
    TotalAppend(a, b, pairs);
    TotalConstant(10, 1783, pairs);
    TotalConstant(16, 1782, pairs);
    TotalAppend(a, b, wrapped);
    TotalConstant(10, 1783, wrapped);
    TotalConstant(16, 1782, wrapped);
    assert Sum(OverflowCounts) == 46342;
    assert Coincidences(OverflowCounts) == 82552932;
  }

  /** `calculateIoC` as written returns a negative value on the overflow text. */
  lemma CalculateIoCAsWrittenNegative()
    ensures var t := OverflowText;
      var n := LetterCount(t);
      AllAscii(t) && n > 1 && Wrap32(n * (n - 1)) != 0
      && IoCAsWritten(Frequencies(ToUpper(t)), n) < 0.0
  {
    OverflowTextCounts();
    IoCOverflow();
  }
}
