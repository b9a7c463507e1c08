/**
  The static data both classes use: the five historical rotor wirings with
  their notches, reflector B, the reflector of the attack and the default
  plugboard. Both Java classes spell the rotor table out; here it is
  defined once.
 */
module Catalogue {
  import opened Alphabet
  import opened Pairs

  const RotorI: string := "EKMFLGDQVZNTOWYHXUSPAIBRCJ"
  const RotorII: string := "AJDKSIRUXBLHWTMCQGZNPYFVOE"
  const RotorIII: string := "BDFHJLCPRTXVZNYEIWGAKMUSQO"
  const RotorIV: string := "ESOVPZJAYQUIRHXLNFTGKDCMWB"
  const RotorV: string := "VZBRGITYUPSDNHLXAWMJQOFECK"

  /** `ROTOR_WIRINGS` of the attack; the default machine uses the first three. */
  const RotorWirings: seq<string> := [RotorI, RotorII, RotorIII, RotorIV, RotorV]

  /** `NOTCH_POSITIONS`, index for index with `RotorWirings`. */
  const NotchPositions: seq<char> := ['Q', 'E', 'V', 'J', 'Z']

  const RotorCount: nat := 5

  /** Reflector B, read by `applyPairs` as the 13 pairs YR UH QS LD PX NG OK MI EB FZ CW VJ AT. */
  const ReflectorB: string := "YRUHQSLDPXNGOKMIEBFZCWVJAT"

  /** The reflector `createEnigma` builds: six pairs, so 14 letters reflect to themselves. */
  const AttackReflector: string := "AYBNCDEXFWGV"

  /** The plugboard of both the default machine and `createEnigma`. */
  const DefaultPlugboard: string := "AZBYCXDWEVFU"

  lemma RotorIIsPermutation()
    ensures IsPermutation(RotorI)
  {
    InverseTablePermutation(RotorI, [20, 22, 24, 6, 0, 3, 5, 15, 21, 25, 1, 4, 2, 10, 12, 19, 7, 23, 18, 11, 17, 8, 13, 16, 14, 9]);
  }

  lemma RotorIIIsPermutation()
    ensures IsPermutation(RotorII)
  {
    InverseTablePermutation(RotorII, [0, 9, 15, 2, 25, 22, 17, 11, 5, 1, 3, 10, 14, 19, 24, 20, 16, 6, 4, 13, 7, 23, 12, 8, 21, 18]);
  }

  lemma RotorIIIIsPermutation()
    ensures IsPermutation(RotorIII)
  {
    InverseTablePermutation(RotorIII, [19, 0, 6, 1, 15, 2, 18, 3, 16, 4, 20, 5, 21, 13, 25, 7, 24, 8, 23, 9, 22, 11, 17, 10, 14, 12]);
  }

  lemma RotorIVIsPermutation()
    ensures IsPermutation(RotorIV)
  {
    InverseTablePermutation(RotorIV, [7, 25, 22, 21, 0, 17, 19, 13, 11, 6, 20, 15, 23, 16, 2, 4, 9, 12, 1, 18, 10, 3, 24, 14, 8, 5]);
  }

  lemma RotorVIsPermutation()
    ensures IsPermutation(RotorV)
  {
    InverseTablePermutation(RotorV, [16, 2, 24, 11, 23, 22, 4, 13, 5, 19, 25, 14, 18, 12, 21, 9, 20, 3, 10, 6, 8, 0, 17, 15, 7, 1]);
  }

  lemma CatalogueWellFormed()
    ensures |RotorWirings| == RotorCount && |NotchPositions| == RotorCount
    ensures forall k :: 0 <= k < RotorCount ==> IsPermutation(RotorWirings[k])
    ensures forall k :: 0 <= k < RotorCount ==> IsUpper(NotchPositions[k])
  {
    forall k | 0 <= k < RotorCount
      ensures IsPermutation(RotorWirings[k])
    {
      if k == 0 {
        RotorIIsPermutation();
      } else if k == 1 {
        RotorIIIsPermutation();
      } else if k == 2 {
        RotorIIIIsPermutation();
      } else if k == 3 {
        RotorIVIsPermutation();
      } else {
        RotorVIsPermutation();
      }
    }
  }

  /** One catalogue entry: a permutation wiring and a letter notch. */
  lemma CatalogueEntry(k: int)
    requires 0 <= k < RotorCount
    ensures IsPermutation(RotorWirings[k]) && IsUpper(NotchPositions[k])
  {
    CatalogueWellFormed();
  }

  /** Reflector B names each of the 26 letters exactly once. */
  lemma ReflectorBCoversAlphabet()
    ensures CoversAlphabet(ReflectorB)
  {
    InverseTablePermutation(ReflectorB, [24, 17, 20, 7, 16, 18, 11, 3, 15, 23, 13, 6, 14, 10, 12, 8, 4, 1, 5, 25, 2, 22, 21, 9, 0, 19]);
  }

  lemma PlugboardAndAttackReflectorWellFormed()
    ensures WellFormed(DefaultPlugboard)
    ensures WellFormed(AttackReflector)
  {
  }

  /** The attack's reflector names 12 distinct letters; every other character, 'H' among them, reflects to itself. */
  lemma AttackReflectorFixedLetters()
    ensures |AttackReflector| == 12 && Distinct(AttackReflector)
    ensures 'H' !in AttackReflector
    ensures forall c :: c !in AttackReflector ==> ApplyPairs(c, AttackReflector) == c
  {
    PlugboardAndAttackReflectorWellFormed();
  }
}
