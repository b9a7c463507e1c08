/**
  The cipher engine (`SimpleEnigmaMachine`). The Java object is mutable: its
  rotor positions advance with every letter. Here a `Machine` is a value and
  every operation that changes the positions returns the new machine.

  Rotor slot 0 is the fast rotor: it steps on every letter, slot 1 steps when
  slot 1 or slot 0 sits at its notch, slot 2 steps when slot 1 sits at its
  notch (the double step). All notch tests read the positions before the step.
 */
module Enigma {
  import opened Alphabet
  import opened Pairs
  import opened Catalogue

  /** `rotateRotors` addresses slots 0, 1 and 2, so the model has exactly three. */
  const RotorSlots: nat := 3

  /**
    The state of a machine after construction: the wirings with the ring
    settings already applied, the notch letters, the current positions and
    the two pair strings.
   */
  datatype Machine = Machine(
    rotors: seq<string>,
    notches: seq<char>,
    positions: seq<int>,
    plugboard: string,
    reflector: string)

  predicate ValidPositions(positions: seq<int>) {
    |positions| == RotorSlots && forall i :: 0 <= i < |positions| ==> 0 <= positions[i] < Size
  }

  /** Rotors and positions that the forward and backward passes can read. */
  predicate RotorStack(rotors: seq<string>, positions: seq<int>) {
    && |rotors| == |positions|
    && (forall i :: 0 <= i < |rotors| ==> IsWiring(rotors[i]))
    && (forall i :: 0 <= i < |positions| ==> 0 <= positions[i] < Size)
  }

  /** Every rotor is a rearrangement of the alphabet. */
  predicate Permutations(rotors: seq<string>) {
    forall i :: 0 <= i < |rotors| ==> IsPermutation(rotors[i])
  }

  /** The machine shape the model works with: three 26-letter rotors, positions in range, pairs of capital letters. */
  predicate Valid(m: Machine) {
    && |m.rotors| == RotorSlots
    && |m.notches| == RotorSlots
    && ValidPositions(m.positions)
    && RotorStack(m.rotors, m.positions)
    && PairLetters(m.plugboard)
    && PairLetters(m.reflector)
  }

  /** What reciprocity rests on: permutation rotors and pair strings that name no letter twice. */
  predicate Reciprocal(m: Machine) {
    Permutations(m.rotors) && Distinct(m.plugboard) && Distinct(m.reflector)
  }

  // ---------------------------------------------------------------------
  // Ring settings (applyRingSettings)
  // ---------------------------------------------------------------------

  /** `ALPHABET.indexOf(ring)`: -1 for a character outside A-Z. */
  function RingShift(ring: char): (k: int)
    ensures IsUpper(ring) ==> 0 <= k < Size && LetterAt(k) == ring
    ensures !IsUpper(ring) ==> k == -1
    ensures k > 0 <==> IsUpper(ring) && ring != 'A'
  {
    if IsUpper(ring) then Index(ring) else -1
  }

  /** The left rotation a ring letter applies: its alphabet index, 0 for a character outside A-Z. */
  function RingOffset(ring: char): (k: int)
    ensures 0 <= k < Size
  {
    if IsUpper(ring) then Index(ring) else 0
  }

  /** `wiring.substring(shift) + wiring.substring(0, shift)` moves position `j + shift` to `j`. */
  lemma RotateLeftAt(wiring: string, shift: int, j: int)
    requires |wiring| == Size && 0 < shift < Size && 0 <= j < Size
    ensures (wiring[shift..] + wiring[..shift])[j] == wiring[(j + shift) % Size]
  {
    if j < Size - shift {
      assert (wiring[shift..] + wiring[..shift])[j] == wiring[shift..][j];
    } else {
      assert (wiring[shift..] + wiring[..shift])[j] == wiring[..shift][j - (Size - shift)];
    }
  }

  /** One wiring rotated left by its ring letter; a shift of 0 or -1 leaves it alone. */
  function ApplyRing(wiring: string, ring: char): (r: string)
    requires |wiring| == Size
    ensures |r| == Size
    ensures RingOffset(ring) == 0 ==> r == wiring
    ensures RingOffset(ring) > 0 ==>
      forall j :: 0 <= j < Size ==> r[j] == wiring[(j + RingOffset(ring)) % Size]
    ensures IsWiring(wiring) ==> IsWiring(r)
  {
    var shift := RingShift(ring);
    if shift > 0 then
      var r := wiring[shift..] + wiring[..shift];
      assert forall j :: 0 <= j < Size ==> r[j] == wiring[(j + shift) % Size] by {
        forall j | 0 <= j < Size
          ensures r[j] == wiring[(j + shift) % Size]
        {
          RotateLeftAt(wiring, shift, j);
        }
      }
      r
    else
      assert RingOffset(ring) == 0;
      wiring
  }

  /** A rotation of a permutation is a permutation. */
  lemma RotationIsPermutation(wiring: string, r: string, shift: int)
    requires IsPermutation(wiring) && |r| == Size && 0 <= shift < Size
    requires forall j :: 0 <= j < Size ==> r[j] == wiring[(j + shift) % Size]
    ensures IsPermutation(r)
  {
    forall i, j | 0 <= i < j < Size
      ensures r[i] != r[j]
    {
      var a, b := (i + shift) % Size, (j + shift) % Size;
      assert a != b;
      assert wiring[a] != wiring[b];
    }
    forall n | 0 <= n < Size
      ensures LetterAt(n) in r
    {
      var c := LetterAt(n);
      assert c in wiring;
      var k := IndexOf(wiring, c);
      var j := (k - shift + Size) % Size;
      assert (j + shift) % Size == k;
      assert r[j] == c;
    }
  }

  /** Ring settings turn a rotor wiring into another rotor wiring. */
  lemma ApplyRingPermutation(wiring: string, ring: char)
    requires IsPermutation(wiring)
    ensures IsPermutation(ApplyRing(wiring, ring))
  {
    var r := ApplyRing(wiring, ring);
    if RingOffset(ring) > 0 {
      RotationIsPermutation(wiring, r, RingOffset(ring));
    } else {
      assert r == wiring;
    }
  }

  /** `applyRingSettings`: every rotor rotated by the ring letter of its slot. */
  function ApplyRingSettings(wirings: seq<string>, rings: seq<char>): (r: seq<string>)
    requires |rings| >= |wirings|
    requires forall i :: 0 <= i < |wirings| ==> |wirings[i]| == Size
    ensures |r| == |wirings|
    ensures forall i :: 0 <= i < |wirings| ==> r[i] == ApplyRing(wirings[i], rings[i])
  {
    seq(|wirings|, i requires 0 <= i < |wirings| => ApplyRing(wirings[i], rings[i]))
  }

  // ---------------------------------------------------------------------
  // Construction and positions
  // ---------------------------------------------------------------------

  /** The five-argument constructor: positions start at 0 and the ring settings are applied once. */
  function Create(wirings: seq<string>, notches: seq<char>, rings: seq<char>,
                  plugboard: string, reflector: string): (m: Machine)
    requires |wirings| == RotorSlots && |notches| == RotorSlots && |rings| >= RotorSlots
    requires forall i :: 0 <= i < |wirings| ==> IsWiring(wirings[i])
    requires PairLetters(plugboard) && PairLetters(reflector)
    ensures Valid(m)
    ensures m.positions == [0, 0, 0]
    ensures m.notches == notches && m.plugboard == plugboard && m.reflector == reflector
    ensures forall i :: 0 <= i < RotorSlots ==> |wirings[i]| == Size && m.rotors[i] == ApplyRing(wirings[i], rings[i])
  {
    assert forall i :: 0 <= i < |wirings| ==> |wirings[i]| == Size by {
      forall i | 0 <= i < |wirings|
        ensures |wirings[i]| == Size
      {
        assert IsWiring(wirings[i]);
      }
    }
    Machine(ApplyRingSettings(wirings, rings), notches, [0, 0, 0], plugboard, reflector)
  }

  /** Built from permutation wirings and pair strings without repeats, the machine is reciprocal whatever its rings. */
  lemma CreateReciprocal(wirings: seq<string>, notches: seq<char>, rings: seq<char>,
                         plugboard: string, reflector: string)
    requires |wirings| == RotorSlots && |notches| == RotorSlots && |rings| >= RotorSlots
    requires Permutations(wirings)
    requires WellFormed(plugboard) && WellFormed(reflector)
    ensures Reciprocal(Create(wirings, notches, rings, plugboard, reflector))
  {
    var m := Create(wirings, notches, rings, plugboard, reflector);
    forall i | 0 <= i < RotorSlots
      ensures IsPermutation(m.rotors[i])
    {
      ApplyRingPermutation(wirings[i], rings[i]);
    }
  }

  /** Rings at 'A' leave every wiring as it is. */
  lemma PlainRings(wirings: seq<string>)
    requires |wirings| == RotorSlots && forall i :: 0 <= i < |wirings| ==> |wirings[i]| == Size
    ensures ApplyRingSettings(wirings, ['A', 'A', 'A']) == wirings
  {
    var r := ApplyRingSettings(wirings, ['A', 'A', 'A']);
    assert RingOffset('A') == 0;
    assert forall i :: 0 <= i < |wirings| ==> r[i] == ApplyRing(wirings[i], 'A') == wirings[i];
  }

  /** With every ring at 'A' construction keeps the wirings exactly as given. */
  lemma CreatePlainRings(wirings: seq<string>, notches: seq<char>, plugboard: string, reflector: string)
    requires |wirings| == RotorSlots && |notches| == RotorSlots
    requires forall i :: 0 <= i < |wirings| ==> IsWiring(wirings[i])
    requires PairLetters(plugboard) && PairLetters(reflector)
    ensures Create(wirings, notches, ['A', 'A', 'A'], plugboard, reflector)
      == Machine(wirings, notches, [0, 0, 0], plugboard, reflector)
  {
    assert forall i :: 0 <= i < |wirings| ==> |wirings[i]| == Size;
    PlainRings(wirings);
  }

  /** A machine built with rings at 'A' and then set to `positions` holds exactly the given parts. */
  function CreateAt(wirings: seq<string>, notches: seq<char>, positions: seq<int>,
                    plugboard: string, reflector: string): (m: Machine)
    requires |wirings| == RotorSlots && |notches| == RotorSlots && ValidPositions(positions)
    requires forall i :: 0 <= i < |wirings| ==> IsWiring(wirings[i])
    requires PairLetters(plugboard) && PairLetters(reflector)
    ensures Valid(m)
    ensures m == Machine(wirings, notches, positions, plugboard, reflector)
  {
    CreatePlainRings(wirings, notches, plugboard, reflector);
    var m := SetRotorPositions(Create(wirings, notches, ['A', 'A', 'A'], plugboard, reflector), positions);
    assert m.positions == positions;
    m
  }

  /** The three rotors of the no-argument constructor are permutations. */
  lemma DefaultRotors()
    ensures Permutations([RotorI, RotorII, RotorIII])
  {
    RotorIIsPermutation();
    RotorIIIsPermutation();
    RotorIIIIsPermutation();
  }

  /** The no-argument constructor: rotors I, II, III, notches Q, E, V, rings A, A, A, reflector B. */
  function Default(): (m: Machine)
    ensures Valid(m) && Reciprocal(m)
    ensures CoversAlphabet(m.reflector)
  {
    DefaultRotors();
    ReflectorBCoversAlphabet();
    PlugboardAndAttackReflectorWellFormed();
    CreateReciprocal([RotorI, RotorII, RotorIII], ['Q', 'E', 'V'], ['A', 'A', 'A'], DefaultPlugboard, ReflectorB);
    Create([RotorI, RotorII, RotorIII], ['Q', 'E', 'V'], ['A', 'A', 'A'], DefaultPlugboard, ReflectorB)
  }

  /** Rings at 'A' leave the default machine with rotors I, II, III as catalogued, all at position 0. */
  lemma DefaultParts()
    ensures Default() == Machine([RotorI, RotorII, RotorIII], ['Q', 'E', 'V'], [0, 0, 0], DefaultPlugboard, ReflectorB)
  {
    DefaultRotors();
    ReflectorBCoversAlphabet();
    PlugboardAndAttackReflectorWellFormed();
    CreatePlainRings([RotorI, RotorII, RotorIII], ['Q', 'E', 'V'], DefaultPlugboard, ReflectorB);
  }

  /** `setRotorPositions`: copies the given positions over the first slots and keeps the rest. */
  function SetRotorPositions(m: Machine, positions: seq<int>): (r: Machine)
    requires |positions| <= |m.positions|
    ensures |r.positions| == |m.positions|
    ensures forall i :: 0 <= i < |positions| ==> r.positions[i] == positions[i]
    ensures forall i :: |positions| <= i < |m.positions| ==> r.positions[i] == m.positions[i]
    ensures r.(positions := m.positions) == m
    ensures Valid(m) && (forall i :: 0 <= i < |positions| ==> 0 <= positions[i] < Size) ==> Valid(r)
    ensures Reciprocal(r) == Reciprocal(m)
  {
    m.(positions := positions + m.positions[|positions|..])
  }

  // ---------------------------------------------------------------------
  // Stepping (rotateRotors)
  // ---------------------------------------------------------------------

  /** Slot `i` shows its notch letter. */
  predicate AtNotch(positions: seq<int>, notches: seq<char>, i: int)
    requires 0 <= i < |positions| && i < |notches| && 0 <= positions[i] < Size
    ensures AtNotch(positions, notches, i) <==> IsUpper(notches[i]) && Index(notches[i]) == positions[i]
  {
    LetterAt(positions[i]) == notches[i]
  }

  /** `rotateRotors`: decide from the old positions which slots move, then move them by one. */
  function Step(positions: seq<int>, notches: seq<char>): (r: seq<int>)
    requires ValidPositions(positions) && |notches| == RotorSlots
    ensures ValidPositions(r)
    ensures r[0] == (positions[0] + 1) % Size
    ensures r[1] != positions[1] <==> AtNotch(positions, notches, 1) || AtNotch(positions, notches, 0)
    ensures r[2] != positions[2] <==> AtNotch(positions, notches, 1)
    ensures forall i :: 0 <= i < RotorSlots ==> r[i] == positions[i] || r[i] == (positions[i] + 1) % Size
  {
    var middleAtNotch := AtNotch(positions, notches, 1);
    var rotateMiddle := middleAtNotch || AtNotch(positions, notches, 0);
    [ (positions[0] + 1) % Size,
      if rotateMiddle then (positions[1] + 1) % Size else positions[1],
      if middleAtNotch then (positions[2] + 1) % Size else positions[2] ]
  }

  /** The positions after `n` letters: the fast rotor has turned `n` times. */
  function StepN(positions: seq<int>, notches: seq<char>, n: nat): (r: seq<int>)
    requires ValidPositions(positions) && |notches| == RotorSlots
    ensures ValidPositions(r)
    ensures r[0] == (positions[0] + n) % Size
    decreases n
  {
    if n == 0 then positions
    else
      var next := Step(positions, notches);
      assert (next[0] + (n - 1)) % Size == (positions[0] + n) % Size by {
        if positions[0] + 1 == Size {
          assert next[0] == 0;
          assert (positions[0] + n) % Size == (n - 1) % Size by {
            assert positions[0] + n == (n - 1) + Size;
          }
        }
      }
      StepN(next, notches, n - 1)
  }

  lemma StepTwice(positions: seq<int>, notches: seq<char>)
    requires ValidPositions(positions) && |notches| == RotorSlots
    ensures StepN(positions, notches, 2) == Step(Step(positions, notches), notches)
  {
    assert StepN(positions, notches, 2) == StepN(Step(positions, notches), notches, 1);
  }

  /**
    The double step: with the fast rotor at its notch and the middle rotor one
    place before its own, the first letter moves the middle rotor onto its
    notch and the second letter moves it again and takes the slow rotor along.
   */
  lemma DoubleStep(positions: seq<int>, notches: seq<char>)
    requires ValidPositions(positions) && |notches| == RotorSlots
    requires AtNotch(positions, notches, 0)
    requires LetterAt((positions[1] + 1) % Size) == notches[1]
    ensures var twice := StepN(positions, notches, 2);
      && twice[0] == (positions[0] + 2) % Size
      && twice[1] == (positions[1] + 2) % Size
      && twice[2] == (positions[2] + 1) % Size
  {
    var once := Step(positions, notches);
    assert !AtNotch(positions, notches, 1) by {
      IndexOfLetterAt(positions[1]);
      IndexOfLetterAt((positions[1] + 1) % Size);
    }
    assert once[1] == (positions[1] + 1) % Size && once[2] == positions[2];
    assert AtNotch(once, notches, 1);
    var twice := Step(once, notches);
    StepTwice(positions, notches);
    assert twice[0] == (positions[0] + 2) % Size by {
      var x := positions[0];
      if x + 1 < Size {
        assert once[0] == x + 1;
      } else {
        assert once[0] == 0;
      }
    }
  }

  // ---------------------------------------------------------------------
  // One rotor, forward and backward
  // ---------------------------------------------------------------------

  /** Forward lookup `wiring.charAt((ALPHABET.indexOf(c) + p) % 26)`. */
  function Forward(wiring: string, p: int, c: char): (r: char)
    requires IsWiring(wiring) && 0 <= p < Size && IsUpper(c)
    ensures IsUpper(r)
  {
    wiring[(Index(c) + p) % Size]
  }

  /** Backward lookup `ALPHABET.charAt((wiring.indexOf(c) - p + 26) % 26)`; the operand is never negative. */
  function Backward(wiring: string, p: int, c: char): (r: char)
    requires 0 <= p < Size
    ensures IsUpper(r)
  {
    LetterAt((IndexOf(wiring, c) - p + Size) % Size)
  }

  /** Adding `p` and then taking it away again, both modulo 26, returns the index. */
  lemma ShiftBack(x: int, p: int)
    requires 0 <= x < Size && 0 <= p < Size
    ensures ((x + p) % Size - p + Size) % Size == x
  {
    if x + p < Size {
      assert (x + p) % Size == x + p;
      assert (x + Size) % Size == x;
    } else {
      assert (x + p) % Size == x + p - Size;
      assert (x + p - Size - p + Size) % Size == x;
    }
  }

  /** Taking `p` away and then adding it again, both modulo 26, returns the index. */
  lemma ShiftForth(j: int, p: int)
    requires 0 <= j < Size && 0 <= p < Size
    ensures ((j - p + Size) % Size + p) % Size == j
  {
    if j >= p {
      assert (j - p + Size) % Size == j - p;
      assert (j - p + p) % Size == j;
    } else {
      assert (j - p + Size) % Size == j - p + Size;
      assert (j - p + Size + p) % Size == j;
    }
  }

  /** For a permutation wiring and one position the two lookups undo each other. */
  lemma RotorLookupInverse(wiring: string, p: int, c: char)
    requires IsPermutation(wiring) && 0 <= p < Size && IsUpper(c)
    ensures Backward(wiring, p, Forward(wiring, p, c)) == c
    ensures Forward(wiring, p, Backward(wiring, p, c)) == c
  {
    var k := (Index(c) + p) % Size;
    IndexOfDistinct(wiring, k);
    ShiftBack(Index(c), p);
    assert Backward(wiring, p, wiring[k]) == LetterAt(Index(c));
    var j := IndexOf(wiring, c);
    assert c in wiring;
    var q := (j - p + Size) % Size;
    ShiftForth(j, p);
    IndexOfLetterAt(q);
    assert Forward(wiring, p, LetterAt(q)) == wiring[j];
  }

  // ---------------------------------------------------------------------
  // The rotor stack
  // ---------------------------------------------------------------------

  /** The forward pass: slot 0 first, the last slot last. */
  function ForwardPass(rotors: seq<string>, positions: seq<int>, c: char): (r: char)
    requires RotorStack(rotors, positions) && IsUpper(c)
    ensures IsUpper(r)
    decreases |rotors|
  {
    if |rotors| == 0 then c
    else
      var n := |rotors| - 1;
      Forward(rotors[n], positions[n], ForwardPass(rotors[..n], positions[..n], c))
  }

  /** The backward pass: the last slot first, slot 0 last. */
  function BackwardPass(rotors: seq<string>, positions: seq<int>, c: char): (r: char)
    requires RotorStack(rotors, positions) && IsUpper(c)
    ensures IsUpper(r)
    decreases |rotors|
  {
    if |rotors| == 0 then c
    else
      var n := |rotors| - 1;
      BackwardPass(rotors[..n], positions[..n], Backward(rotors[n], positions[n], c))
  }

  /** The backward pass inverts the forward pass through the same rotors at the same positions. */
  lemma {:induction false} PassesInverse(rotors: seq<string>, positions: seq<int>, c: char)
    requires RotorStack(rotors, positions) && Permutations(rotors) && IsUpper(c)
    ensures BackwardPass(rotors, positions, ForwardPass(rotors, positions, c)) == c
    ensures ForwardPass(rotors, positions, BackwardPass(rotors, positions, c)) == c
    decreases |rotors|
  {
    if |rotors| > 0 {
      var n := |rotors| - 1;
      var front, ps := rotors[..n], positions[..n];
      assert RotorStack(front, ps) && Permutations(front);
      PassesInverse(front, ps, c);
      RotorLookupInverse(rotors[n], positions[n], ForwardPass(front, ps, c));
      var b := Backward(rotors[n], positions[n], c);
      PassesInverse(front, ps, b);
      RotorLookupInverse(rotors[n], positions[n], c);
    }
  }

  // ---------------------------------------------------------------------
  // One letter (processChar)
  // ---------------------------------------------------------------------

  /** The letter that reaches the reflector: plugboard, then the forward pass. */
  function ToReflector(m: Machine, positions: seq<int>, c: char): (r: char)
    requires Valid(m) && ValidPositions(positions) && IsUpper(c)
    ensures IsUpper(r)
  {
    assert RotorStack(m.rotors, positions);
    ApplyPairsLetter(c, m.plugboard);
    ForwardPass(m.rotors, positions, ApplyPairs(c, m.plugboard))
  }

  /**
    The substitution `processChar` applies to a letter once the rotors have
    stepped to `positions`: plugboard, forward pass, reflector, backward pass,
    plugboard.
   */
  function Transform(m: Machine, positions: seq<int>, c: char): (r: char)
    requires Valid(m) && ValidPositions(positions) && IsUpper(c)
    ensures IsUpper(r)
  {
    assert RotorStack(m.rotors, positions);
    var out := ToReflector(m, positions, c);
    ApplyPairsLetter(out, m.reflector);
    var back := BackwardPass(m.rotors, positions, ApplyPairs(out, m.reflector));
    ApplyPairsLetter(back, m.plugboard);
    ApplyPairs(back, m.plugboard)
  }

  /** At fixed positions the machine is its own inverse. */
  lemma TransformInvolution(m: Machine, positions: seq<int>, c: char)
    requires Valid(m) && Reciprocal(m) && ValidPositions(positions) && IsUpper(c)
    ensures Transform(m, positions, Transform(m, positions, c)) == c
  {
    assert RotorStack(m.rotors, positions);
    ApplyPairsLetter(c, m.plugboard);
    var entry := ApplyPairs(c, m.plugboard);
    var out := ForwardPass(m.rotors, positions, entry);
    ApplyPairsLetter(out, m.reflector);
    var reflected := ApplyPairs(out, m.reflector);
    var back := BackwardPass(m.rotors, positions, reflected);
    ApplyPairsLetter(back, m.plugboard);
    var d := ApplyPairs(back, m.plugboard);
    assert Transform(m, positions, c) == d;
    ApplyPairsInvolution(back, m.plugboard);
    PassesInverse(m.rotors, positions, reflected);
    ApplyPairsInvolution(out, m.reflector);
    PassesInverse(m.rotors, positions, entry);
    ApplyPairsInvolution(c, m.plugboard);
  }

  /** A letter encrypts to itself exactly when its forward path ends on a letter the reflector leaves alone. */
  lemma TransformFixedPoint(m: Machine, positions: seq<int>, c: char)
    requires Valid(m) && Reciprocal(m) && ValidPositions(positions) && IsUpper(c)
    ensures Transform(m, positions, c) == c <==> ToReflector(m, positions, c) !in m.reflector
  {
    assert RotorStack(m.rotors, positions);
    ApplyPairsLetter(c, m.plugboard);
    var entry := ApplyPairs(c, m.plugboard);
    var out := ForwardPass(m.rotors, positions, entry);
    ApplyPairsLetter(out, m.reflector);
    var reflected := ApplyPairs(out, m.reflector);
    var back := BackwardPass(m.rotors, positions, reflected);
    PassesInverse(m.rotors, positions, entry);
    PassesInverse(m.rotors, positions, reflected);
    ApplyPairsInvolution(c, m.plugboard);
    ApplyPairsInvolution(back, m.plugboard);
    ApplyPairsFixedPoint(out, m.reflector);
    if Transform(m, positions, c) == c {
      assert ApplyPairs(back, m.plugboard) == c;
      assert back == entry;
      assert ForwardPass(m.rotors, positions, back) == reflected;
    }
  }

  /** With a reflector that pairs all 26 letters no letter ever encrypts to itself. */
  lemma TransformNoFixedPoint(m: Machine, positions: seq<int>, c: char)
    requires Valid(m) && Reciprocal(m) && ValidPositions(positions) && IsUpper(c)
    requires CoversAlphabet(m.reflector)
    ensures Transform(m, positions, c) != c
  {
    TransformFixedPoint(m, positions, c);
    var out := ToReflector(m, positions, c);
    assert LetterAt(Index(out)) in m.reflector;
  }

  /** The default machine never encrypts a letter to itself, whatever its positions. */
  lemma DefaultNoSelfEncryption(positions: seq<int>, c: char)
    requires ValidPositions(positions) && IsUpper(c)
    ensures Transform(Default(), positions, c) != c
  {
    TransformNoFixedPoint(Default(), positions, c);
  }

  /**
    A machine with the attack's reflector, which leaves 14 letters alone,
    encrypts some letter to itself at every position: the letter whose
    forward path ends on 'H'.
   */
  lemma AttackMachineSelfEncrypts(m: Machine, positions: seq<int>)
    requires Valid(m) && Reciprocal(m) && ValidPositions(positions)
    requires m.reflector == AttackReflector
    ensures exists c :: IsUpper(c) && Transform(m, positions, c) == c
  {
    assert RotorStack(m.rotors, positions);
    var back := BackwardPass(m.rotors, positions, 'H');
    ApplyPairsLetter(back, m.plugboard);
    var c := ApplyPairs(back, m.plugboard);
    ApplyPairsInvolution(back, m.plugboard);
    PassesInverse(m.rotors, positions, 'H');
    assert ToReflector(m, positions, c) == 'H';
    AttackReflectorFixedLetters();
    TransformFixedPoint(m, positions, c);
  }

  /**
    `processChar`: the source applies the plugboard, then steps the rotors,
    then runs the rest at the new positions. The plugboard never reads the
    positions, so stepping first and substituting the whole letter at the
    stepped positions gives the same letter and the same machine.
   */
  function ProcessChar(m: Machine, c: char): (r: (char, Machine))
    requires Valid(m) && IsUpper(c)
    ensures IsUpper(r.0)
    ensures Valid(r.1)
    ensures r.1 == m.(positions := Step(m.positions, m.notches))
  {
    var stepped := Step(m.positions, m.notches);
    (Transform(m, stepped, c), m.(positions := stepped))
  }

  // ---------------------------------------------------------------------
  // A message (process, encrypt, decrypt)
  // ---------------------------------------------------------------------

  /** One iteration of the loop in `process`: a letter goes through `processChar`, anything else is copied. */
  function Advance(m: Machine, c: char): (r: (char, Machine))
    requires Valid(m) && IsAscii(c) && !IsLower(c)
    ensures Valid(r.1)
    ensures IsLetter(c) ==> IsUpper(r.0) && r.1 == m.(positions := Step(m.positions, m.notches))
    ensures !IsLetter(c) ==> r.0 == c && r.1 == m
  {
    if IsLetter(c) then ProcessChar(m, c) else (c, m)
  }

  /** Advancing over one character takes the step count down by one exactly when it is a letter. */
  lemma AdvanceSteps(m: Machine, c: char, k: nat)
    requires Valid(m) && IsAscii(c) && !IsLower(c)
    ensures StepN(m.positions, m.notches, (if IsLetter(c) then 1 else 0) + k)
      == StepN(Advance(m, c).1.positions, m.notches, k)
  {
  }

  /** The output of the loop of `process` over an already upper-cased message. */
  function Run(m: Machine, s: string): (r: string)
    requires Valid(m) && IsUpperCased(s)
    ensures |r| == |s|
    ensures forall i :: 0 <= i < |s| && !IsLetter(s[i]) ==> r[i] == s[i]
    ensures forall i :: 0 <= i < |s| && IsLetter(s[i]) ==> IsUpper(r[i])
    ensures IsUpperCased(r)
    decreases |s|
  {
    if |s| == 0 then []
    else
      var head := Advance(m, s[0]);
      var rest := Run(head.1, s[1..]);
      var out := [head.0] + rest;
      assert forall i :: 1 <= i < |s| ==> out[i] == rest[i - 1] && s[i] == s[1..][i - 1];
      out
  }

  /** The machine the loop of `process` leaves behind: the positions have taken one step per letter. */
  function Final(m: Machine, s: string): (r: Machine)
    requires Valid(m) && IsUpperCased(s)
    ensures Valid(r)
    ensures r == m.(positions := StepN(m.positions, m.notches, LetterCount(s)))
    decreases |s|
  {
    if |s| == 0 then m
    else
      AdvanceSteps(m, s[0], LetterCount(s[1..]));
      Final(Advance(m, s[0]).1, s[1..])
  }

  /** `process`: upper-case the message, substitute its letters and copy everything else. */
  function Process(m: Machine, message: string): (r: (string, Machine))
    requires Valid(m) && AllAscii(message)
    ensures |r.0| == |message|
    ensures forall i :: 0 <= i < |message| && !IsLetter(message[i]) ==> r.0[i] == message[i]
    ensures forall i :: 0 <= i < |message| && IsLetter(message[i]) ==> IsUpper(r.0[i])
    ensures r.1 == m.(positions := StepN(m.positions, m.notches, LetterCount(message)))
  {
    ToUpperIsUpperCased(message);
    LetterCountToUpper(message);
    (Run(m, ToUpper(message)), Final(m, ToUpper(message)))
  }

  /** `encrypt` is `process`; a reciprocal machine reset to its start decrypts the result to the upper-cased message. */
  function Encrypt(m: Machine, message: string): (r: (string, Machine))
    requires Valid(m) && AllAscii(message)
    ensures r == Process(m, message)
    ensures AllAscii(r.0)
    ensures Reciprocal(m) ==> Process(m, r.0).0 == ToUpper(message)
  {
    ToUpperIsUpperCased(message);
    UpperCasedFixed(Run(m, ToUpper(message)));
    if Reciprocal(m) then
      RunRoundTrip(m, ToUpper(message));
      Process(m, message)
    else
      Process(m, message)
  }

  /** `decrypt` is `process` too; encrypting its output from the same start gives an upper-cased ciphertext back. */
  function Decrypt(m: Machine, message: string): (r: (string, Machine))
    requires Valid(m) && AllAscii(message)
    ensures r == Process(m, message)
    ensures AllAscii(r.0)
    ensures Reciprocal(m) && IsUpperCased(message) ==> Process(m, r.0).0 == message
  {
    ToUpperIsUpperCased(message);
    UpperCasedFixed(Run(m, ToUpper(message)));
    if Reciprocal(m) && IsUpperCased(message) then
      UpperCasedFixed(message);
      RunRoundTrip(m, message);
      Process(m, message)
    else
      Process(m, message)
  }

  lemma RunCons(m: Machine, s: string)
    requires Valid(m) && IsUpperCased(s) && |s| > 0
    ensures Run(m, s) == [Advance(m, s[0]).0] + Run(Advance(m, s[0]).1, s[1..])
  {
  }

  lemma FinalCons(m: Machine, s: string, i: int)
    requires Valid(m) && IsUpperCased(s) && 0 < i <= |s|
    ensures Final(m, s[..i]) == Final(Advance(m, s[0]).1, s[1..][..i - 1])
  {
    assert s[..i][1..] == s[1..][..i - 1];
  }

  /** Each letter of the output is what processChar gives on the machine the prefix before it left behind. */
  lemma {:induction false} RunLetterAt(m: Machine, s: string, i: int)
    requires Valid(m) && IsUpperCased(s) && 0 <= i < |s| && IsLetter(s[i])
    ensures Run(m, s)[i] == ProcessChar(Final(m, s[..i]), s[i]).0
    decreases |s|
  {
    RunCons(m, s);
    if i == 0 {
      assert s[..0] == [];
    } else {
      var next := Advance(m, s[0]).1;
      RunLetterAt(next, s[1..], i - 1);
      FinalCons(m, s, i);
    }
  }

  /** Processing the output again from the same starting machine gives the input back. */
  lemma {:induction false} RunRoundTrip(m: Machine, s: string)
    requires Valid(m) && Reciprocal(m) && IsUpperCased(s)
    ensures Run(m, Run(m, s)) == s
    decreases |s|
  {
    if |s| > 0 {
      var out := Run(m, s);
      var head := Advance(m, s[0]);
      assert out == [head.0] + Run(head.1, s[1..]);
      var back := Advance(m, out[0]);
      if IsLetter(s[0]) {
        TransformInvolution(m, Step(m.positions, m.notches), s[0]);
      }
      assert back.0 == s[0] && back.1 == head.1;
      RunRoundTrip(head.1, s[1..]);
      assert out[1..] == Run(head.1, s[1..]);
      assert Run(m, out) == [back.0] + Run(back.1, out[1..]);
    }
  }

  lemma UpperCasedFixed(s: string)
    requires IsUpperCased(s)
    ensures AllAscii(s) && ToUpper(s) == s
  {
  }

  /** Decrypting the ciphertext with the machine that encrypted it, reset to its start, returns the upper-cased message. */
  lemma EncryptDecrypt(m: Machine, message: string)
    requires Valid(m) && Reciprocal(m) && AllAscii(message)
    ensures var cipher := Encrypt(m, message).0;
      AllAscii(cipher) && Decrypt(m, cipher).0 == ToUpper(message)
  {
    ToUpperIsUpperCased(message);
    var cipher := Run(m, ToUpper(message));
    UpperCasedFixed(cipher);
    RunRoundTrip(m, ToUpper(message));
  }

  /**
    The usage the source's `main` shows: set the start positions, encrypt,
    set the same positions on the (stepped) machine again, decrypt.
   */
  lemma ResetRoundTrip(m: Machine, start: seq<int>, message: string)
    requires Valid(m) && Reciprocal(m) && AllAscii(message)
    requires |start| == RotorSlots && forall i :: 0 <= i < RotorSlots ==> 0 <= start[i] < Size
    ensures var sent := Encrypt(SetRotorPositions(m, start), message);
      var reset := SetRotorPositions(sent.1, start);
      Valid(reset) && AllAscii(sent.0) && Decrypt(reset, sent.0).0 == ToUpper(message)
  {
    var begin := SetRotorPositions(m, start);
    var sent := Encrypt(begin, message);
    assert SetRotorPositions(sent.1, start) == begin;
    EncryptDecrypt(begin, message);
  }
}
