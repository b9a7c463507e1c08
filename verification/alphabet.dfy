/**
  The fixed 26-letter alphabet of the machine and the small string helpers
  the cipher engine and the statistics share: the index <-> letter mapping
  (`ALPHABET.indexOf` / `ALPHABET.charAt`), `String.indexOf` on a wiring, the
  ASCII view of `Character.isLetter` and `String.toUpperCase`, and what it
  means for a wiring string to be a permutation of A-Z.
 */
module Alphabet {

  const Size: nat := 26

  predicate IsUpper(c: char) {
    'A' <= c <= 'Z'
  }

  predicate IsLower(c: char) {
    'a' <= c <= 'z'
  }

  /** `Character.isLetter` restricted to ASCII, the model's character set. */
  predicate IsLetter(c: char)
    ensures IsLetter(c) ==> IsAscii(c)
  {
    IsUpper(c) || IsLower(c)
  }

  predicate IsAscii(c: char) {
    c as int < 128
  }

  predicate AllAscii(s: string) {
    forall i :: 0 <= i < |s| ==> IsAscii(s[i])
  }

  /** `ALPHABET.charAt(i)` */
  function LetterAt(i: int): (c: char)
    requires 0 <= i < Size
    ensures IsUpper(c)
  {
    ('A' as int + i) as char
  }

  /** `ALPHABET.indexOf(c)` for a letter of the alphabet. */
  function Index(c: char): (i: int)
    requires IsUpper(c)
    ensures 0 <= i < Size && LetterAt(i) == c
  {
    c as int - 'A' as int
  }

  /** The alphabet string "ABCDEFGHIJKLMNOPQRSTUVWXYZ". */
  const Letters: string := seq(Size, i requires 0 <= i < Size => LetterAt(i))

  lemma IndexOfLetterAt(i: int)
    requires 0 <= i < Size
    ensures Index(LetterAt(i)) == i
  {
  }

  /** `String.toUpperCase` on one ASCII character. */
  function UpperChar(c: char): (u: char)
    ensures IsAscii(c) ==> IsAscii(u)
    ensures IsLetter(c) <==> IsLetter(u)
    ensures IsLetter(c) ==> IsUpper(u)
    ensures IsLower(c) ==> Index(u) == c as int - 'a' as int
    ensures !IsLower(c) ==> u == c
  {
    if IsLower(c) then (c as int - 32) as char else c
  }

  /** `String.toUpperCase` on an ASCII string: same length, a-z mapped to A-Z. */
  function ToUpper(s: string): (u: string)
    ensures |u| == |s|
    ensures forall i :: 0 <= i < |s| ==> u[i] == UpperChar(s[i])
  {
    seq(|s|, i requires 0 <= i < |s| => UpperChar(s[i]))
  }

  /** Number of letters; the characters `Character.isLetter` accepts. */
  function LetterCount(s: string): (n: nat)
    ensures n <= |s|
  {
    if |s| == 0 then 0 else (if IsLetter(s[0]) then 1 else 0) + LetterCount(s[1..])
  }

  /** Upper-casing keeps the letters letters and the rest non-letters. */
  lemma {:induction false} LetterCountToUpper(s: string)
    ensures LetterCount(ToUpper(s)) == LetterCount(s)
    decreases |s|
  {
    if |s| > 0 {
      assert ToUpper(s)[1..] == ToUpper(s[1..]);
      LetterCountToUpper(s[1..]);
    }
  }

  /** A string that upper-casing leaves alone: ASCII with no lower-case letter. */
  predicate IsUpperCased(s: string) {
    forall i :: 0 <= i < |s| ==> IsAscii(s[i]) && !IsLower(s[i])
  }

  lemma ToUpperIsUpperCased(s: string)
    requires AllAscii(s)
    ensures IsUpperCased(ToUpper(s))
    ensures ToUpper(ToUpper(s)) == ToUpper(s)
  {
  }

  /** Java's `String.indexOf(char)`: the first position holding `c`, or -1. */
  function IndexOf(s: string, c: char): (r: int)
    ensures -1 <= r < |s|
    ensures r == -1 <==> c !in s
    ensures 0 <= r ==> s[r] == c
  {
    if |s| == 0 then -1
    else if s[0] == c then 0
    else
      var k := IndexOf(s[1..], c);
      if k == -1 then -1 else k + 1
  }

  /** No character occurs twice. */
  predicate Distinct(s: string) {
    forall i, j :: 0 <= i < j < |s| ==> s[i] != s[j]
  }

  /** The shape a rotor wiring needs for the forward lookup to stay in range: 26 capital letters. */
  predicate IsWiring(w: string) {
    |w| == Size && forall i :: 0 <= i < |w| ==> IsUpper(w[i])
  }

  /** A reversible rotor wiring: a rearrangement of all 26 letters. */
  predicate IsPermutation(w: string) {
    && IsWiring(w)
    && (forall k :: 0 <= k < Size ==> LetterAt(k) in w)
    && Distinct(w)
  }

  /** `inv` locates every letter in `w`: letter `k` sits at position `inv[k]`. */
  predicate InverseTable(w: string, inv: seq<int>) {
    && |w| == Size && |inv| == Size
    && (forall k :: 0 <= k < Size ==> 0 <= inv[k] < Size && w[inv[k]] == LetterAt(k))
  }

  /** The values a sequence takes. */
  function Image(s: seq<int>): set<int> {
    set i | 0 <= i < |s| :: s[i]
  }

  lemma {:induction false} ImageCard(s: seq<int>)
    requires forall i, j :: 0 <= i < j < |s| ==> s[i] != s[j]
    ensures |Image(s)| == |s|
    decreases |s|
  {
    if |s| > 0 {
      var n := |s| - 1;
      var front := s[..n];
      ImageCard(front);
      assert Image(s) == Image(front) + {s[n]};
      assert s[n] !in Image(front);
    }
  }

  /** The integers 0 .. n-1. */
  function Below(n: nat): (r: set<int>)
    ensures |r| == n
    ensures forall v :: v in r <==> 0 <= v < n
  {
    if n == 0 then {} else Below(n - 1) + {n - 1}
  }

  /** `n` different values in `0 .. n-1` take every value. */
  lemma Pigeonhole(s: seq<int>, n: nat)
    requires |s| == n
    requires forall i :: 0 <= i < |s| ==> 0 <= s[i] < n
    requires forall i, j :: 0 <= i < j < |s| ==> s[i] != s[j]
    ensures forall v :: 0 <= v < n ==> v in Image(s)
  {
    ImageCard(s);
    var a, b := Image(s), Below(n);
    assert a <= b;
    assert a + b == b && a * b == a && a - b == {};
    assert |b - a| == 0;
    assert a == b;
  }

  /** A 26-letter wiring in which every letter can be located is a permutation of the alphabet. */
  lemma InverseTablePermutation(w: string, inv: seq<int>)
    requires InverseTable(w, inv)
    ensures IsPermutation(w)
  {
    forall i, j | 0 <= i < j < Size
      ensures inv[i] != inv[j]
    {
      assert w[inv[i]] == LetterAt(i) && w[inv[j]] == LetterAt(j);
    }
    Pigeonhole(inv, Size);
    forall i | 0 <= i < Size
      ensures IsUpper(w[i])
    {
      assert i in Image(inv);
      var k :| 0 <= k < |inv| && inv[k] == i;
    }
    forall i, j | 0 <= i < j < Size
      ensures w[i] != w[j]
    {
      assert i in Image(inv) && j in Image(inv);
      var ki :| 0 <= ki < |inv| && inv[ki] == i;
      var kj :| 0 <= kj < |inv| && inv[kj] == j;
      IndexOfLetterAt(ki);
      IndexOfLetterAt(kj);
    }
    forall k | 0 <= k < Size
      ensures LetterAt(k) in w
    {
      assert w[inv[k]] == LetterAt(k);
    }
  }

  /** `indexOf` finds the first occurrence: no earlier position holds the character. */
  lemma {:induction false} IndexOfFirst(s: string, c: char, j: int)
    requires 0 <= j < |s| && s[j] == c
    ensures 0 <= IndexOf(s, c) <= j
    decreases |s|
  {
    if s[0] != c {
      assert s[1..][j - 1] == c;
      IndexOfFirst(s[1..], c, j - 1);
    }
  }

  /** In a string without repeats `indexOf` inverts indexing. */
  lemma IndexOfDistinct(s: string, k: int)
    requires Distinct(s) && 0 <= k < |s|
    ensures IndexOf(s, s[k]) == k
  {
    IndexOfFirst(s, s[k], k);
  }
}
