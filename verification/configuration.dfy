/**
  The search space of the attack (`SimpleEnigmaMachineAttack.EnigmaConfig`):
  three rotor numbers from the five-rotor catalogue and three start letters.
  `createEnigma` puts the left rotor in slot 0, so the left rotor of a
  configuration is the fast rotor of the machine it builds.

  `java.util.Random` is replaced by explicit draws: a `Move` holds the value
  `rand.nextInt(6)` chose and the value the redraw loop finally accepted,
  and a `Restart` holds a shuffled rotor list and three position draws.
 */
module Configuration {
  import opened Alphabet
  import opened Pairs
  import opened Catalogue
  import opened Enigma

  datatype Config = Config(
    leftRotor: int,
    middleRotor: int,
    rightRotor: int,
    leftPosition: char,
    middlePosition: char,
    rightPosition: char)

  /** Rotor numbers index the catalogue and start positions are letters. */
  predicate InCatalogue(c: Config) {
    && 0 <= c.leftRotor < RotorCount
    && 0 <= c.middleRotor < RotorCount
    && 0 <= c.rightRotor < RotorCount
    && IsUpper(c.leftPosition) && IsUpper(c.middlePosition) && IsUpper(c.rightPosition)
  }

  /** The configurations the searches produce: in the catalogue, three different rotors. */
  predicate ValidConfig(c: Config) {
    && InCatalogue(c)
    && c.leftRotor != c.middleRotor
    && c.leftRotor != c.rightRotor
    && c.middleRotor != c.rightRotor
  }

  /**
    `createEnigma`: each slot takes wiring and notch from the same catalogue
    entry, the rings are all 'A', the plugboard is the default one and the
    reflector is the six-pair attack reflector.
   */
  function CreateEnigma(c: Config): (m: Machine)
    requires InCatalogue(c)
    ensures Valid(m) && Reciprocal(m)
    ensures m.rotors == [RotorWirings[c.leftRotor], RotorWirings[c.middleRotor], RotorWirings[c.rightRotor]]
    ensures m.notches == [NotchPositions[c.leftRotor], NotchPositions[c.middleRotor], NotchPositions[c.rightRotor]]
    ensures m.positions == [Index(c.leftPosition), Index(c.middlePosition), Index(c.rightPosition)]
    ensures m.plugboard == DefaultPlugboard && m.reflector == AttackReflector
  {
    CatalogueEntry(c.leftRotor);
    CatalogueEntry(c.middleRotor);
    CatalogueEntry(c.rightRotor);
    PlugboardAndAttackReflectorWellFormed();
    var wirings := [RotorWirings[c.leftRotor], RotorWirings[c.middleRotor], RotorWirings[c.rightRotor]];
    assert Permutations(wirings);
    CreateAt(
      wirings,
      [NotchPositions[c.leftRotor], NotchPositions[c.middleRotor], NotchPositions[c.rightRotor]],
      [Index(c.leftPosition), Index(c.middlePosition), Index(c.rightPosition)],
      DefaultPlugboard, AttackReflector)
  }

  /** The machine of a configuration decrypts what the same configuration encrypted. */
  lemma ConfigRoundTrip(c: Config, message: string)
    requires InCatalogue(c) && AllAscii(message)
    ensures var cipher := Encrypt(CreateEnigma(c), message).0;
      AllAscii(cipher) && Decrypt(CreateEnigma(c), cipher).0 == ToUpper(message)
  {
    EncryptDecrypt(CreateEnigma(c), message);
  }

  // ---------------------------------------------------------------------
  // mutate
  // ---------------------------------------------------------------------

  /** The random values one call of `mutate` consumed: the field chosen and the value accepted. */
  datatype Move = Move(choice: int, draw: int)

  /**
    What `mutate`'s draws can be: `nextInt(6)` for the field; for a rotor
    field the first `nextInt(5)` that differs from the two other rotors;
    for a position `nextInt(26)`.
   */
  predicate AcceptableMove(c: Config, mv: Move) {
    if mv.choice == 0 then 0 <= mv.draw < RotorCount && mv.draw != c.middleRotor && mv.draw != c.rightRotor
    else if mv.choice == 1 then 0 <= mv.draw < RotorCount && mv.draw != c.leftRotor && mv.draw != c.rightRotor
    else if mv.choice == 2 then 0 <= mv.draw < RotorCount && mv.draw != c.leftRotor && mv.draw != c.middleRotor
    else 3 <= mv.choice < 6 && 0 <= mv.draw < Size
  }

  /** Number of the six fields in which two configurations differ. */
  function ChangedFields(a: Config, b: Config): nat {
    (if a.leftRotor != b.leftRotor then 1 else 0)
    + (if a.middleRotor != b.middleRotor then 1 else 0)
    + (if a.rightRotor != b.rightRotor then 1 else 0)
    + (if a.leftPosition != b.leftPosition then 1 else 0)
    + (if a.middlePosition != b.middlePosition then 1 else 0)
    + (if a.rightPosition != b.rightPosition then 1 else 0)
  }

  /** `mutate`: a copy with one field redrawn. */
  function Mutate(c: Config, mv: Move): (r: Config)
    requires AcceptableMove(c, mv)
    ensures ChangedFields(c, r) <= 1
    ensures ValidConfig(c) ==> ValidConfig(r)
    ensures InCatalogue(c) ==> InCatalogue(r)
    ensures mv.choice < 3 ==> r.leftPosition == c.leftPosition && r.middlePosition == c.middlePosition && r.rightPosition == c.rightPosition
    ensures mv.choice >= 3 ==> r.leftRotor == c.leftRotor && r.middleRotor == c.middleRotor && r.rightRotor == c.rightRotor
  {
    match mv.choice
    case 0 => c.(leftRotor := mv.draw)
    case 1 => c.(middleRotor := mv.draw)
    case 2 => c.(rightRotor := mv.draw)
    case 3 => c.(leftPosition := LetterAt(mv.draw))
    case 4 => c.(middlePosition := LetterAt(mv.draw))
    case _ => c.(rightPosition := LetterAt(mv.draw))
  }

  /** Each redraw loop of `mutate` has a value to stop at: for every field some draw is acceptable. */
  lemma MoveExists(c: Config, choice: int)
    requires 0 <= choice < 6
    ensures exists draw :: AcceptableMove(c, Move(choice, draw))
  {
    var others :=
      if choice == 0 then {c.middleRotor, c.rightRotor}
      else if choice == 1 then {c.leftRotor, c.rightRotor}
      else {c.leftRotor, c.middleRotor};
    var draw := if 0 !in others then 0 else if 1 !in others then 1 else 2;
    assert AcceptableMove(c, Move(choice, draw));
  }

  /** Every valid configuration one field away is a possible result of `mutate`. */
  lemma MutateReachesNeighbours(c: Config, d: Config)
    requires ValidConfig(c) && ValidConfig(d) && ChangedFields(c, d) == 1
    ensures exists mv :: AcceptableMove(c, mv) && Mutate(c, mv) == d
  {
    var mv :=
      if c.leftRotor != d.leftRotor then Move(0, d.leftRotor)
      else if c.middleRotor != d.middleRotor then Move(1, d.middleRotor)
      else if c.rightRotor != d.rightRotor then Move(2, d.rightRotor)
      else if c.leftPosition != d.leftPosition then Move(3, Index(d.leftPosition))
      else if c.middlePosition != d.middlePosition then Move(4, Index(d.middlePosition))
      else Move(5, Index(d.rightPosition));
    assert AcceptableMove(c, mv);
    assert Mutate(c, mv) == d;
  }

  // ---------------------------------------------------------------------
  // Fresh configurations (shuffle + three position draws)
  // ---------------------------------------------------------------------

  /** The random values one fresh start consumed: the shuffled rotor list and three `nextInt(26)` draws. */
  datatype Restart = Restart(order: seq<int>, left: int, middle: int, right: int)

  /** `Collections.shuffle` of the list 0..4 yields a rearrangement of it. */
  predicate IsShuffle(order: seq<int>) {
    && |order| == RotorCount
    && (forall i :: 0 <= i < |order| ==> 0 <= order[i] < RotorCount)
    && (forall i, j :: 0 <= i < j < |order| ==> order[i] != order[j])
  }

  predicate WellFormedRestart(r: Restart) {
    IsShuffle(r.order) && 0 <= r.left < Size && 0 <= r.middle < Size && 0 <= r.right < Size
  }

  /** The first three rotors of the shuffled list and three random letters. */
  function FreshConfig(r: Restart): (c: Config)
    requires WellFormedRestart(r)
    ensures ValidConfig(c)
    ensures c.leftRotor in r.order && c.middleRotor in r.order && c.rightRotor in r.order
  {
    Config(r.order[0], r.order[1], r.order[2], LetterAt(r.left), LetterAt(r.middle), LetterAt(r.right))
  }
}
