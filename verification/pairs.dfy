/**
  The pair substitution shared by the plugboard and the reflector
  (`SimpleEnigmaMachine.applyPairs`). A pair string "AZBY" swaps A with Z and
  B with Y; a letter that does not occur is left alone. The scan takes the
  first pair that mentions the letter.
 */
module Pairs {
  import opened Alphabet

  /** The shape `applyPairs` can read without running off the end: pairs. */
  predicate EvenLength(pairs: string) {
    |pairs| % 2 == 0
  }

  /** Whole pairs of capital letters: what the machine needs to keep letters letters. */
  predicate PairLetters(pairs: string) {
    EvenLength(pairs) && forall i :: 0 <= i < |pairs| ==> IsUpper(pairs[i])
  }

  /** A well-formed pair string: whole pairs of letters, no letter twice. */
  predicate WellFormed(pairs: string) {
    PairLetters(pairs) && Distinct(pairs)
  }

  /** A reflector that pairs every letter of the alphabet. */
  predicate CoversAlphabet(pairs: string) {
    WellFormed(pairs) && forall k :: 0 <= k < Size ==> LetterAt(k) in pairs
  }

  /** `applyPairs`: the partner of the first pair that mentions `c`, or `c` itself. */
  function ApplyPairs(c: char, pairs: string): (r: char)
    requires EvenLength(pairs)
    ensures c !in pairs ==> r == c
    ensures r == c || r in pairs
    decreases |pairs|
  {
    if |pairs| == 0 then c
    else if c == pairs[0] then pairs[1]
    else if c == pairs[1] then pairs[0]
    else
      assert forall x :: x in pairs[2..] ==> x in pairs;
      ApplyPairs(c, pairs[2..])
  }

  /** The tail of a pair string after its first pair keeps its letters distinct. */
  lemma DistinctTail(pairs: string)
    requires |pairs| >= 2 && Distinct(pairs)
    ensures Distinct(pairs[2..])
    ensures forall k :: 0 <= k < |pairs| - 2 ==> pairs[2..][k] != pairs[0] && pairs[2..][k] != pairs[1]
  {
    var rest := pairs[2..];
    forall i, j | 0 <= i < j < |rest|
      ensures rest[i] != rest[j]
    {
      assert rest[i] == pairs[i + 2] && rest[j] == pairs[j + 2];
    }
  }

  /** The two letters of the `i`-th pair swap with each other. */
  lemma {:induction false} ApplyPairsPartner(pairs: string, i: int)
    requires EvenLength(pairs) && Distinct(pairs) && 0 <= i < |pairs| / 2
    ensures ApplyPairs(pairs[2 * i], pairs) == pairs[2 * i + 1]
    ensures ApplyPairs(pairs[2 * i + 1], pairs) == pairs[2 * i]
    decreases |pairs|
  {
    if i > 0 {
      var rest := pairs[2..];
      DistinctTail(pairs);
      ApplyPairsPartner(rest, i - 1);
      assert rest[2 * (i - 1)] == pairs[2 * i] && rest[2 * (i - 1) + 1] == pairs[2 * i + 1];
    }
  }

  /** With distinct letters a mentioned letter always moves to another mentioned letter. */
  lemma {:induction false} ApplyPairsMoves(c: char, pairs: string)
    requires EvenLength(pairs)
    ensures Distinct(pairs) && c in pairs ==> ApplyPairs(c, pairs) != c && ApplyPairs(c, pairs) in pairs
    decreases |pairs|
  {
    if |pairs| > 0 && c != pairs[0] && c != pairs[1] {
      var rest := pairs[2..];
      ApplyPairsMoves(c, rest);
      assert forall x :: x in rest ==> x in pairs;
      assert c in pairs ==> c in rest by {
        if c in pairs {
          var k :| 0 <= k < |pairs| && pairs[k] == c;
          assert rest[k - 2] == c;
        }
      }
      if Distinct(pairs) {
        DistinctTail(pairs);
      }
    }
  }

  /** Letters go to letters. */
  lemma ApplyPairsLetter(c: char, pairs: string)
    requires PairLetters(pairs) && IsUpper(c)
    ensures IsUpper(ApplyPairs(c, pairs))
  {
    ApplyPairsMoves(c, pairs);
  }

  /** A well-formed pair string is an involution: swapping twice is the identity. */
  lemma {:induction false} ApplyPairsInvolution(c: char, pairs: string)
    requires EvenLength(pairs) && Distinct(pairs)
    ensures ApplyPairs(ApplyPairs(c, pairs), pairs) == c
    decreases |pairs|
  {
    if |pairs| == 0 {
    } else if c == pairs[0] {
      assert ApplyPairs(pairs[1], pairs) == pairs[0];
    } else if c == pairs[1] {
    } else {
      var rest := pairs[2..];
      DistinctTail(pairs);
      var r := ApplyPairs(c, rest);
      ApplyPairsMoves(c, rest);
      if r in rest {
        var k :| 0 <= k < |rest| && rest[k] == r;
        assert r != pairs[0] && r != pairs[1];
      }
      ApplyPairsInvolution(c, rest);
    }
  }

  /** A letter is a fixed point exactly when the pair string does not mention it. */
  lemma ApplyPairsFixedPoint(c: char, pairs: string)
    requires EvenLength(pairs) && Distinct(pairs)
    ensures ApplyPairs(c, pairs) == c <==> c !in pairs
  {
    ApplyPairsMoves(c, pairs);
  }

  /** A full reflector has no fixed point on the alphabet. */
  lemma FullPairingNoFixedPoint(c: char, pairs: string)
    requires CoversAlphabet(pairs) && IsUpper(c)
    ensures ApplyPairs(c, pairs) != c
  {
    assert LetterAt(Index(c)) in pairs;
    ApplyPairsMoves(c, pairs);
  }
}
