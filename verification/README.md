# A verified model of a simplified Enigma machine and its attack

This project models, in Dafny, the two classes of a small Java teaching
implementation of the Enigma cipher.

`SimpleEnigmaMachine` is the cipher engine:
- three rotors, each a 26-letter wiring with a notch letter and a ring letter;
- a plugboard and a reflector, both written as strings of letter pairs;
- `processChar`: plugboard, step the rotors, forward pass, reflector, backward pass, plugboard.
  The model steps first and then applies the whole substitution at the new positions.
  This gives the same result, because the plugboard never reads the positions;
- `process`, `encrypt` and `decrypt` over a whole message;
- `setRotorPositions`.

`SimpleEnigmaMachineAttack` is the cryptanalysis:
- the five-rotor catalogue;
- `EnigmaConfig` with `createEnigma` and `mutate`;
- the trigram counter;
- the counting part of the index of coincidence;
- the exhaustive search over all 1 054 560 configurations;
- the hill climb with restarts.

The Java machine is a mutable object. Here a `Machine` is an immutable
value, and every operation that moves the rotors returns the new machine.

Rotor slot 0 is the one passed first to the constructor. It is the fast
rotor: it steps on every letter and is the first one the forward pass
meets. `createEnigma` puts the configuration's "left" rotor in that slot.

Modules, one per file:

| file | module | what it holds |
|---|---|---|
| alphabet.dfy | `Alphabet` | letters, `toUpperCase` on ASCII, `indexOf`, wirings and permutations |
| pairs.dfy | `Pairs` | `applyPairs` and its involution and fixed-point facts |
| catalogue.dfy | `Catalogue` | rotor wirings I–V, notches, reflector B, the attack's reflector, the plugboard |
| enigma.dfy | `Enigma` | the machine: ring settings, stepping, one letter, a message, the round trip |
| configuration.dfy | `Configuration` | `EnigmaConfig`, `createEnigma`, `mutate`, fresh random configurations |
| statistics.dfy | `Statistics` | `countCommonTrigrams`, the counts of `calculateIoC`, the 32-bit overflow |
| search.dfy | `Search` | `exhaustiveSearch` |
| climb.dfy | `HillClimbing` | `hillClimb` |

Two predicates split the machine's preconditions.
- `Valid` is the machine shape the model works with, chosen so that every character stays in the alphabet:
  - three 26-letter wirings of capital letters;
  - positions in 0..25;
  - pair strings made of whole pairs of capital letters.
- `Reciprocal` is what the decryption property additionally needs:
  - every wiring is a permutation of the alphabet;
  - no pair string names a letter twice.

The machines the code itself builds are proved to be both Valid and
Reciprocal: the no-argument constructor and every `createEnigma`.

The fitness `calculatePlaintextFitness` is floating-point arithmetic over
the decryption. The searches therefore take the score as a parameter
`score: Config -> real`.

`java.util.Random` is replaced by explicit draws:
- `Move` holds the field `mutate` chose and the value its redraw loop accepted;
- `Restart` holds a shuffled rotor list and three letter draws;
- `Draws` holds every random value one `hillClimb` run consumes.

## Model

Source paths are relative to the repository root.

| member | source | states |
|---|---|---|
| Alphabet.IsLetter | src/main/java/es/usj/crypto/SimpleEnigmaMachine.java:178 | `Character.isLetter` on the ASCII character set: the capitals A–Z and the lower-case a–z, and every character it accepts is ASCII |
| Alphabet.LetterAt | src/main/java/es/usj/crypto/SimpleEnigmaMachine.java:113 | `ALPHABET.charAt(i)` for a position in 0..25 is a capital letter; `IndexOfLetterAt` shows `indexOf` gives the position back |
| Alphabet.Index | src/main/java/es/usj/crypto/SimpleEnigmaMachine.java:104 | `ALPHABET.indexOf(c)` of a capital letter is a position in 0..25 at which `charAt` gives the letter back |
| Alphabet.UpperChar | src/main/java/es/usj/crypto/SimpleEnigmaMachine.java:177 | upper-casing one ASCII character: a lower-case letter becomes the capital at the same alphabet position, every other character is kept, letters stay letters |
| Alphabet.ToUpper | src/main/java/es/usj/crypto/SimpleEnigmaMachine.java:177 | upper-casing a string keeps its length and upper-cases each character in place |
| Alphabet.IndexOf | src/main/java/es/usj/crypto/SimpleEnigmaMachine.java:112 | `indexOf` returns -1 exactly when the character is absent, otherwise a position holding it |
| Alphabet.IndexOfFirst | src/main/java/es/usj/crypto/SimpleEnigmaMachine.java:112 | `indexOf` returns the first position holding the character |
| Pairs.ApplyPairs | src/main/java/es/usj/crypto/SimpleEnigmaMachine.java:126-132 | a character the pair string does not mention is returned unchanged; any result is the character itself or a character of the pair string |
| Pairs.ApplyPairsMoves | src/main/java/es/usj/crypto/SimpleEnigmaMachine.java:126-132 | with no letter repeated, a character the pair string mentions is sent to a different character of the string |
| Pairs.ApplyPairsPartner | src/main/java/es/usj/crypto/SimpleEnigmaMachine.java:126-132 | with no letter repeated, the two characters of the `i`-th pair are sent to each other |
| Pairs.ApplyPairsInvolution | src/main/java/es/usj/crypto/SimpleEnigmaMachine.java:126-132 | with no letter repeated, applying the pairs twice gives the character back |
| Pairs.ApplyPairsFixedPoint | src/main/java/es/usj/crypto/SimpleEnigmaMachine.java:126-132 | with no letter repeated, a character is left alone exactly when the pair string does not mention it |
| Pairs.FullPairingNoFixedPoint | src/main/java/es/usj/crypto/SimpleEnigmaMachine.java:126-132 | a pair string naming all 26 letters moves every letter |
| Pairs.ApplyPairsLetter | src/main/java/es/usj/crypto/SimpleEnigmaMachine.java:126-132 | pairs of capital letters send a capital letter to a capital letter |
| Catalogue.CatalogueWellFormed | src/main/java/es/usj/crypto/SimpleEnigmaMachineAttack.java:22-32 | five rotors and five notches; every wiring is a permutation of the alphabet and every notch a letter |
| Catalogue.RotorIIsPermutation | src/main/java/es/usj/crypto/SimpleEnigmaMachineAttack.java:24 | rotor I is a rearrangement of the 26 letters |
| Catalogue.ReflectorBCoversAlphabet | src/main/java/es/usj/crypto/SimpleEnigmaMachine.java:74 | read as pairs, the reflector B string pairs all 26 letters, each exactly once |
| Catalogue.PlugboardAndAttackReflectorWellFormed | src/main/java/es/usj/crypto/SimpleEnigmaMachineAttack.java:75-76 | the plugboard "AZBYCXDWEVFU" and the attack reflector "AYBNCDEXFWGV" are whole pairs of letters with no letter repeated |
| Catalogue.AttackReflectorFixedLetters | src/main/java/es/usj/crypto/SimpleEnigmaMachineAttack.java:76 | the reflector of `createEnigma` names 12 distinct letters, not 'H', and reflects every character it does not name to itself |
| Enigma.RingShift | src/main/java/es/usj/crypto/SimpleEnigmaMachine.java:85-86 | `ALPHABET.indexOf(ring)`: the alphabet position of a ring letter, -1 for any other character, and above 0 exactly for the letters B–Z |
| Enigma.ApplyRing | src/main/java/es/usj/crypto/SimpleEnigmaMachine.java:85-88 | ring letter `k` rotates the wiring left by `k`, so position `j` holds the old position `j + k` mod 26; ring 'A' or a non-letter leaves it alone; a wiring stays a wiring |
| Enigma.ApplyRingPermutation | src/main/java/es/usj/crypto/SimpleEnigmaMachine.java:83-90 | ring settings turn a permutation wiring into a permutation wiring |
| Enigma.ApplyRingSettings | src/main/java/es/usj/crypto/SimpleEnigmaMachine.java:83-90 | one wiring per slot, each rotated by the ring letter of its own slot |
| Enigma.PlainRings | src/main/java/es/usj/crypto/SimpleEnigmaMachineAttack.java:69 | rings 'A', 'A', 'A' leave every wiring as given |
| Enigma.Create | src/main/java/es/usj/crypto/SimpleEnigmaMachine.java:37-48 | the constructor keeps notches and pair strings, starts every position at 0 and stores each wiring with its ring applied |
| Enigma.CreateReciprocal | src/main/java/es/usj/crypto/SimpleEnigmaMachine.java:37-48 | from permutation wirings and repeat-free pair strings the constructor builds a reciprocal machine, whatever the rings |
| Enigma.Default | src/main/java/es/usj/crypto/SimpleEnigmaMachine.java:65-77 | the no-argument machine is valid and reciprocal, and its reflector pairs every letter |
| Enigma.DefaultParts | src/main/java/es/usj/crypto/SimpleEnigmaMachine.java:65-77 | the no-argument machine holds rotors I, II, III with notches Q, E, V at positions 0, 0, 0, the plugboard and reflector B, unrotated |
| Enigma.SetRotorPositions | src/main/java/es/usj/crypto/SimpleEnigmaMachine.java:186-188 | the given positions replace the first slots, later slots and every other part of the machine stay as they were |
| Enigma.CreateAt | src/main/java/es/usj/crypto/SimpleEnigmaMachineAttack.java:71-83 | constructing with rings 'A', 'A', 'A' and then setting the positions gives a valid machine holding exactly the given wirings, notches, positions, plugboard and reflector |
| Enigma.AtNotch | src/main/java/es/usj/crypto/SimpleEnigmaMachine.java:142 | the notch test `ALPHABET.charAt(position) == notch` holds exactly when the notch is a capital letter whose alphabet position is the rotor's position |
| Enigma.Step | src/main/java/es/usj/crypto/SimpleEnigmaMachine.java:138-155 | slot 0 always advances; slot 1 moves if and only if slot 1 or slot 0 sat at its notch; slot 2 moves if and only if slot 1 sat at its notch; each slot moves by at most one, modulo 26 |
| Enigma.StepN | src/main/java/es/usj/crypto/SimpleEnigmaMachine.java:150-154 | after `n` letters the positions are still in 0..25 and the fast rotor has advanced by `n`, modulo 26 |
| Enigma.DoubleStep | src/main/java/es/usj/crypto/SimpleEnigmaMachine.java:142-154 | fast rotor at its notch, middle rotor one place before its notch (modulo 26, so 'Z' before 'A' included): in two letters the middle rotor moves twice and takes the slow rotor once |
| Enigma.Forward | src/main/java/es/usj/crypto/SimpleEnigmaMachine.java:104-105 | the forward lookup of a letter through a 26-letter wiring gives a letter; `RotorLookupInverse` states that `Backward` undoes it |
| Enigma.Backward | src/main/java/es/usj/crypto/SimpleEnigmaMachine.java:112-113 | the backward lookup gives a letter for any character, since its index is never negative; `RotorLookupInverse` states that `Forward` undoes it |
| Enigma.RotorLookupInverse | src/main/java/es/usj/crypto/SimpleEnigmaMachine.java:103-114 | for a permutation wiring at one position, the backward lookup undoes the forward lookup and the other way round |
| Enigma.ForwardPass | src/main/java/es/usj/crypto/SimpleEnigmaMachine.java:103-106 | the forward pass through all rotors, slot 0 first, gives a letter; `PassesInverse` states that the backward pass undoes it |
| Enigma.BackwardPass | src/main/java/es/usj/crypto/SimpleEnigmaMachine.java:111-114 | the backward pass, last slot first, gives a letter; `PassesInverse` states that the forward pass undoes it |
| Enigma.PassesInverse | src/main/java/es/usj/crypto/SimpleEnigmaMachine.java:102-114 | the reverse pass through the rotors undoes the forward pass at the same positions, and the other way round |
| Enigma.Transform | src/main/java/es/usj/crypto/SimpleEnigmaMachine.java:99-116 | the substitution of one letter at given positions gives a letter; what it does is stated by `TransformInvolution` and `TransformFixedPoint` |
| Enigma.TransformInvolution | src/main/java/es/usj/crypto/SimpleEnigmaMachine.java:98-117 | at fixed positions the letter substitution is its own inverse |
| Enigma.TransformFixedPoint | src/main/java/es/usj/crypto/SimpleEnigmaMachine.java:98-117 | a letter encrypts to itself if and only if the letter reaching the reflector is one the reflector string does not mention |
| Enigma.TransformNoFixedPoint | src/main/java/es/usj/crypto/SimpleEnigmaMachine.java:98-117 | with a reflector that pairs all 26 letters no letter encrypts to itself |
| Enigma.DefaultNoSelfEncryption | src/main/java/es/usj/crypto/SimpleEnigmaMachine.java:65-77 | the no-argument machine never encrypts a letter to itself, at any positions |
| Enigma.AttackMachineSelfEncrypts | src/main/java/es/usj/crypto/SimpleEnigmaMachineAttack.java:71-77 | a reciprocal machine with the reflector of `createEnigma` encrypts some letter to itself at every rotor position, unlike the default machine |
| Enigma.ProcessChar | src/main/java/es/usj/crypto/SimpleEnigmaMachine.java:98-117 | a letter gives a letter, and the machine afterwards differs only in having stepped once |
| Enigma.Advance | src/main/java/es/usj/crypto/SimpleEnigmaMachine.java:178 | a letter goes through `processChar` and steps the machine once; any other character is copied and the machine is unchanged |
| Enigma.Run | src/main/java/es/usj/crypto/SimpleEnigmaMachine.java:177-180 | same length as the input, non-letters copied in place, letters replaced by letters |
| Enigma.Final | src/main/java/es/usj/crypto/SimpleEnigmaMachine.java:175-181 | after a message the rotors have stepped once per letter and nothing else changed |
| Enigma.Process | src/main/java/es/usj/crypto/SimpleEnigmaMachine.java:175-181 | upper-cases the message, keeps its length and its non-letters, turns letters into letters, and steps once per letter |
| Enigma.RunLetterAt | src/main/java/es/usj/crypto/SimpleEnigmaMachine.java:177-179 | each output letter is what `processChar` gives on the machine left behind by the characters before it |
| Enigma.RunRoundTrip | src/main/java/es/usj/crypto/SimpleEnigmaMachine.java:164-169 | processing the output again from the same starting machine returns the input |
| Enigma.Encrypt | src/main/java/es/usj/crypto/SimpleEnigmaMachine.java:160-162 | encryption is `process`, gives ASCII text, and on a reciprocal machine processing the ciphertext from the same start gives the upper-cased message |
| Enigma.Decrypt | src/main/java/es/usj/crypto/SimpleEnigmaMachine.java:167-169 | decryption is `process` too; on a reciprocal machine, encrypting the output of an upper-cased ciphertext from the same start gives the ciphertext back |
| Enigma.EncryptDecrypt | src/main/java/es/usj/crypto/SimpleEnigmaMachine.java:160-169 | decrypting a ciphertext with the machine that encrypted it, at its starting state, gives the upper-cased message |
| Enigma.ResetRoundTrip | src/main/java/es/usj/crypto/SimpleEnigmaMachine.java:208-214 | set positions, encrypt, set the same positions again, decrypt: the result is the upper-cased message |
| Configuration.CreateEnigma | src/main/java/es/usj/crypto/SimpleEnigmaMachineAttack.java:58-86 | the machine holds the three catalogue wirings and notches in the configuration's order, the configuration's letters as positions, the fixed plugboard and the attack reflector; it is valid and reciprocal |
| Configuration.ConfigRoundTrip | src/main/java/es/usj/crypto/SimpleEnigmaMachineAttack.java:58-86 | the machine of a configuration decrypts what a fresh machine of the same configuration encrypted |
| Configuration.AcceptableMove | src/main/java/es/usj/crypto/SimpleEnigmaMachineAttack.java:95-122 | the values `mutate`'s draws can take: a field in 0..5; for a rotor field a rotor number different from the other two rotors; for a position field a letter index in 0..25 |
| Configuration.Mutate | src/main/java/es/usj/crypto/SimpleEnigmaMachineAttack.java:88-126 | at most one field changes; distinct rotors stay distinct; a rotor move keeps the positions and a position move keeps the rotors |
| Configuration.MoveExists | src/main/java/es/usj/crypto/SimpleEnigmaMachineAttack.java:98-118 | every redraw loop of `mutate` has a value it accepts |
| Configuration.MutateReachesNeighbours | src/main/java/es/usj/crypto/SimpleEnigmaMachineAttack.java:88-126 | every valid configuration differing in exactly one field is a possible result of `mutate` |
| Configuration.FreshConfig | src/main/java/es/usj/crypto/SimpleEnigmaMachineAttack.java:251-265 | the first three entries of a shuffled rotor list and three random letters form a configuration with distinct rotors |
| Statistics.IndexOfFrom | src/main/java/es/usj/crypto/SimpleEnigmaMachineAttack.java:211 | `indexOf(t, from)` returns an occurrence at or after `from` with none before it, or -1 when there is none |
| Statistics.CountOccurrences | src/main/java/es/usj/crypto/SimpleEnigmaMachineAttack.java:210-214 | the inner loop counts every start position of the trigram, overlapping ones included |
| Statistics.CountCommonTrigrams | src/main/java/es/usj/crypto/SimpleEnigmaMachineAttack.java:205-217 | the result is the total number of occurrences of the ten common trigrams in the upper-cased text |
| Statistics.ShortTextNoTrigrams | src/main/java/es/usj/crypto/SimpleEnigmaMachineAttack.java:205-217 | a text shorter than three characters has no hit |
| Statistics.TheTwice | src/main/java/es/usj/crypto/SimpleEnigmaMachineAttack.java:18-20 | "THETHE" scores exactly two hits |
| Statistics.FrequenciesSum | src/main/java/es/usj/crypto/SimpleEnigmaMachineAttack.java:151-156 | the 26 letter counts add up to the number of letters |
| Statistics.LetterFrequencies | src/main/java/es/usj/crypto/SimpleEnigmaMachineAttack.java:146-156 | the counting loop gives each letter's count in the upper-cased text and the number of letters |
| Statistics.Coincidences | src/main/java/es/usj/crypto/SimpleEnigmaMachineAttack.java:159-162 | the exact sum of `freq * (freq - 1)` over the counts is never negative, and it is 0 when no count exceeds 1 |
| Statistics.CoincidencesBound | src/main/java/es/usj/crypto/SimpleEnigmaMachineAttack.java:159-163 | the pairs of equal letters are between 0 and the number of all ordered letter pairs |
| Statistics.IoC | src/main/java/es/usj/crypto/SimpleEnigmaMachineAttack.java:163 | the exact index of coincidence lies in [0, 1] and is 0 for fewer than two letters |
| Statistics.CalculateIoC | src/main/java/es/usj/crypto/SimpleEnigmaMachineAttack.java:145-164 | with exact arithmetic the result is the index of coincidence of the letter counts of the upper-cased text; it lies in [0, 1] and is 0 below two letters |
| Statistics.Wrap32 | src/main/java/es/usj/crypto/SimpleEnigmaMachineAttack.java:163 | Java `int` arithmetic: the result is in the signed 32-bit range, congruent to the input modulo 2^32, and equal to it when it fits |
| Statistics.CoincidencesAsWritten | src/main/java/es/usj/crypto/SimpleEnigmaMachineAttack.java:159-162 | the sum as written, with each `freq * (freq - 1)` wrapped to an `int`, equals the exact sum while no count exceeds 46341 |
| Statistics.IoCAsWritten | src/main/java/es/usj/crypto/SimpleEnigmaMachineAttack.java:163 | the index as written is 0 below two letters and equals the exact index up to 46341 letters |
| Statistics.IoCOverflow | src/main/java/es/usj/crypto/SimpleEnigmaMachineAttack.java:163 | with counts of 46342 letters the `int` denominator wraps to -2147432674 and the index as written is negative, while the exact index is in (0, 1] |
| Statistics.CalculateIoCAsWrittenNegative | src/main/java/es/usj/crypto/SimpleEnigmaMachineAttack.java:145-164 | `calculateIoC` as written returns a negative number for a 46342-letter text |
| Search.SearchRightPosition | src/main/java/es/usj/crypto/SimpleEnigmaMachineAttack.java:337-350 | the innermost loop scores 26 configurations and keeps every one it passed at or below the best score |
| Search.SearchMiddlePosition | src/main/java/es/usj/crypto/SimpleEnigmaMachineAttack.java:336-351 | the middle-letter loop scores 26 × 26 configurations and keeps every one it passed at or below the best score |
| Search.SearchLeftPosition | src/main/java/es/usj/crypto/SimpleEnigmaMachineAttack.java:335-352 | the three letter loops score the 17576 start positions of one rotor order |
| Search.SearchRightRotor | src/main/java/es/usj/crypto/SimpleEnigmaMachineAttack.java:332-353 | the right-rotor loop skips the two rotors in use and scores 3 × 17576 configurations |
| Search.SearchMiddleRotor | src/main/java/es/usj/crypto/SimpleEnigmaMachineAttack.java:329-354 | the middle-rotor loop skips the left rotor and scores 12 × 17576 configurations |
| Search.ExhaustiveSearch | src/main/java/es/usj/crypto/SimpleEnigmaMachineAttack.java:324-357 | scores 1054560 configurations. Returns null exactly when no configuration with distinct rotors scores above -Double.MAX_VALUE. Otherwise returns a configuration with distinct rotors whose score is the maximum and is strictly greater than that of every configuration before it in loop order (the first maximum wins) |
| HillClimbing.Start | src/main/java/es/usj/crypto/SimpleEnigmaMachineAttack.java:258-276 | a climb starts from the fresh configuration, with its score and a zero counter |
| HillClimbing.Iterate | src/main/java/es/usj/crypto/SimpleEnigmaMachineAttack.java:279-316 | a strictly better neighbour is adopted and resets the counter. Otherwise the counter rises, and when it already stood at 100 the state becomes the fresh start, whatever it scores. A non-zero counter means the best is kept. The best score falls only by such a restart |
| HillClimbing.After | src/main/java/es/usj/crypto/SimpleEnigmaMachineAttack.java:278-317 | the state after `n` iterations keeps a configuration with distinct rotors, its score, and a counter of at most 100 and at most `n` |
| HillClimbing.HillClimb | src/main/java/es/usj/crypto/SimpleEnigmaMachineAttack.java:247-319 | the loop returns the best configuration of the state after `maxIterations` iterations (none for a negative count), and its rotors are distinct |
| HillClimbing.StaleKeepsBest | src/main/java/es/usj/crypto/SimpleEnigmaMachineAttack.java:285-296 | while the counter reads `k`, the best configuration and score have not changed for the last `k` iterations |
| HillClimbing.RestartAfterStagnation | src/main/java/es/usj/crypto/SimpleEnigmaMachineAttack.java:296-315 | with the counter at 100 and a neighbour that is no better, the next state is always the fresh configuration and its score. This happens at iteration 100 or later, after the best stood unchanged for the previous 100 iterations |
| HillClimbing.ScoreDropsOnlyAtRestart | src/main/java/es/usj/crypto/SimpleEnigmaMachineAttack.java:296-315 | a drop of the best score means the counter stood at 100, the neighbour was no better, and the state is the fresh start |

## Left out

- Console output is not modelled: the `printf` and `println` calls of `hillClimb`, and both `main` methods. `ResetRoundTrip` states the round trip that the machine's `main` performs.
- `EnigmaConfig.toString` is not modelled. It only formats output.
- The machine's wiring string for reflector C appears only in a comment, and no code uses it.
- `calculateFrequencyScore` and `calculatePlaintextFitness` are not modelled. They are double-precision arithmetic and `Math.pow`. The searches take the score as a parameter.
- The whole `double` arithmetic of `calculateIoC` is not modelled. The model computes the index as an exact rational number.
- NaN scores are not modelled. With an abstract real score every comparison `score > bestScore` is ordered.
- For a text without letters `calculateFrequencyScore` returns 0.0, because its loop breaks at once (`SimpleEnigmaMachineAttack.java`, lines 189-191). The model leaves the chi-square out with the rest of the floating point; for the index of coincidence it follows the code, which gives 0 below two letters.
- `java.util.Random`, `Collections.shuffle` and the redraw loops of `mutate` are not modelled directly. They become explicit inputs (`Move`, `Restart`, `Draws`), restricted to the values those calls can return. `MoveExists` shows every redraw loop has a value to stop at. Termination with probability one is not modelled.
- Character handling is limited to ASCII. `Character.isLetter` and `String.toUpperCase` are modelled on ASCII only. Messages and texts are required to be ASCII.
- `toUpperCase()` uses the default locale, and the model assumes one that maps a–z to A–Z. In a Turkish locale 'i' becomes 'İ', a letter outside A–Z, and "ing" no longer matches "ING".
- Non-ASCII input is not modelled. The Java code accepts it, with these effects:
  - `process` copies a non-ASCII non-letter as `toUpperCase` left it, which need not be the original character: 'ⓐ' (U+24D0), which `isLetter` rejects, comes out as 'Ⓐ'.
  - Some non-ASCII letters upper-case into A–Z: 'ı' (U+0131) becomes 'I' and 'ſ' (U+017F) becomes 'S'. These are then encrypted and counted like any capital letter.
  - A non-ASCII letter whose upper case is outside A–Z reaches the forward lookup with `indexOf` -1. It throws only when the stepped fast-rotor position is 0; otherwise it reads position p - 1 and continues.
  - In `calculateIoC` such a letter throws at `frequencies[c - 'A']`.
  - Some upper-case conversions change the string's length ('ß' becomes "SS").
- Pairs.ApplyPairs: requires a pair string of even length. On an odd-length string the Java scan throws an index error once it reaches the unpaired last character. Every string the code passes has even length.
- Enigma.Valid: the model fixes the machine's shape: exactly three 26-letter wirings of capital letters, positions in 0..25, and pair strings of whole pairs of capital letters. This is a modelling choice. The Java constructor accepts anything, and other shapes behave in several ways, none of them modelled:
  - with one rotor `rotateRotors` throws on the first letter, reading `rotorPositions[1]` (:142). With two rotors it throws only once slot 1 shows its notch, at `shouldRotate[2] = true` (:144), so a short message can run without error;
  - a fourth or later rotor takes part in both passes but never steps;
  - a wiring longer than 26 letters runs without an index error;
  - a shorter wiring can throw in the forward lookup;
  - a character outside A–Z that reaches the forward lookup throws only at position 0, and otherwise reads position p - 1;
  - an odd-length pair string throws once `applyPairs` reaches its last character.
- Enigma.Create: the five-argument constructor writes the ring-rotated wirings back into the caller's `rotorSettings` array. The model returns them in the new machine and does not model that change to the caller's array.
- Enigma.RunRoundTrip: proved only for machines whose wirings are permutations and whose pair strings repeat no letter (`Reciprocal`). Without it the Java machine need not be reciprocal either. `CreateEnigma` and `Default` both satisfy it.
- Enigma.SetRotorPositions: the varargs call is modelled for at most three positions. More would throw in `System.arraycopy`.
- Search.ExhaustiveSearch: the `scored` out-parameter counts the calls to the scoring function. The Java method does not return it.
- HillClimbing.HillClimb: the result is stated through `After`, the iteration function. The decryption string kept alongside the best configuration is not modelled, because it is only printed.
- Statistics.IoCAsWritten: defined only where the wrapped denominator is not zero. Java would divide by 0 there. That needs 2^32 or 2^32 + 1 letters, more than a Java string can hold, so the restriction excludes no real input.

## Findings

| source | as written | input that shows it | evidently intended | confidence | as-written member | corrected member |
|---|---|---|---|---|---|---|
| src/main/java/es/usj/crypto/SimpleEnigmaMachineAttack.java:163 | `totalChars * (totalChars - 1)` is an `int` product and wraps once the text has more than 46341 letters | "ABC…Z" 1782 times followed by "ABCDEFGHIJ" (46342 letters): the denominator wraps to -2147432674 and the index of coincidence comes out negative | the product taken in `long` or `double`, giving an index in [0, 1] | not executed | Statistics.CalculateIoCAsWrittenNegative | Statistics.CalculateIoC |
