/**
  `SimpleEnigmaMachineAttack.exhaustiveSearch`: six nested loops over the
  rotor numbers (left, middle, right, skipping repeats) and the three start
  letters, keeping the first configuration whose score is strictly greater
  than the best so far. The score is a parameter: it stands for
  `calculatePlaintextFitness(config.createEnigma().decrypt(ciphertext))`.

  Each loop is its own method; they share the running state `Scan` and the
  invariant `Covers`, which says that every valid configuration the loops
  have passed was compared.
 */
module Search {
  import opened Alphabet
  import opened Catalogue
  import opened Configuration

  datatype Option<T> = None | Some(value: T)

  /** `-Double.MAX_VALUE`, the score the search starts from, as an exact real. */
  const MinScore: real := -179769313486231570814527423731704356798070567525844996598917476803157260780028538760589558632766878171540458953514382464234321326889464182768467546703537516986049910576551282076245490090389328944075868508455133942304583236903222948165808559332123348274797826204144723168738177180919299881250404026184124858368.0

  /** Configurations scored by one pass over the 26 x 26 x 26 start positions. */
  const PositionCount: nat := 17576

  /**
    `d` comes before `c` in the nesting order of the loops: left rotor,
    middle rotor, right rotor, then the left, middle and right letters.
   */
  predicate Before(d: Config, c: Config) {
    || d.leftRotor < c.leftRotor
    || (d.leftRotor == c.leftRotor && d.middleRotor < c.middleRotor)
    || (d.leftRotor == c.leftRotor && d.middleRotor == c.middleRotor && d.rightRotor < c.rightRotor)
    || (d.leftRotor == c.leftRotor && d.middleRotor == c.middleRotor && d.rightRotor == c.rightRotor
        && SamePositionsBefore(d, c))
  }

  /** The order of the three position loops, for equal rotors. */
  predicate SamePositionsBefore(d: Config, c: Config) {
    || d.leftPosition < c.leftPosition
    || (d.leftPosition == c.leftPosition && d.middlePosition < c.middlePosition)
    || (d.leftPosition == c.leftPosition && d.middlePosition == c.middlePosition && d.rightPosition < c.rightPosition)
  }

  /** The local variables the loops carry: `bestConfig`, `bestScore` and the number of configurations scored. */
  datatype Scan = Scan(best: Option<Config>, bestScore: real, scored: nat)

  /** The best so far is null with the initial score, or a valid configuration with its score, passed by the loops. */
  ghost predicate Leads(score: Config -> real, cursor: Config, s: Scan) {
    match s.best
    case None => s.bestScore == MinScore
    case Some(c) =>
      && ValidConfig(c) && Before(c, cursor)
      && s.bestScore == score(c) && MinScore < s.bestScore
      && (forall d :: ValidConfig(d) && Before(d, c) ==> score(d) < s.bestScore)
  }

  /** Every valid configuration before the cursor scored at most the best score, and the best leads. */
  ghost predicate Covers(score: Config -> real, cursor: Config, s: Scan) {
    && (forall d :: ValidConfig(d) && Before(d, cursor) ==> score(d) <= s.bestScore)
    && Leads(score, cursor, s)
  }

  /** Two cursors with the same valid configurations before them cover the same. */
  lemma CoversMove(score: Config -> real, a: Config, b: Config, s: Scan)
    requires Covers(score, a, s)
    requires forall d :: ValidConfig(d) ==> (Before(d, a) <==> Before(d, b))
    ensures Covers(score, b, s)
  {
  }

  /** Comparing the configuration at the cursor moves the cursor one place on. */
  lemma Compared(score: Config -> real, c: Config, next: Config, s: Scan, t: Scan)
    requires ValidConfig(c) && Covers(score, c, s)
    requires forall d :: ValidConfig(d) ==> (Before(d, next) <==> Before(d, c) || d == c)
    requires t.best == (if score(c) > s.bestScore then Some(c) else s.best)
    requires t.bestScore == (if score(c) > s.bestScore then score(c) else s.bestScore)
    ensures Covers(score, next, t)
  {
  }

  /** The innermost loop: right start letter 'A' .. 'Z'. */
  method SearchRightPosition(score: Config -> real, l: int, m: int, r: int, lp: char, mp: char, s: Scan)
    returns (t: Scan)
    requires ValidConfig(Config(l, m, r, lp, mp, 'A'))
    requires Covers(score, Config(l, m, r, lp, mp, 'A'), s)
    ensures Covers(score, Config(l, m, r, lp, (mp as int + 1) as char, 'A'), t)
    ensures t.scored == s.scored + Size
  {
    t := s;
    var rp := 'A';
    while rp <= 'Z'
      invariant 'A' <= rp <= '['
      invariant Covers(score, Config(l, m, r, lp, mp, rp), t)
      invariant t.scored == s.scored + (rp as int - 'A' as int)
    {
      ghost var before := t;
      var config := Config(l, m, r, lp, mp, rp);
      var sc := score(config);
      if sc > t.bestScore {
        t := t.(best := Some(config), bestScore := sc);
      }
      t := t.(scored := t.scored + 1);
      Compared(score, config, Config(l, m, r, lp, mp, (rp as int + 1) as char), before, t);
      rp := (rp as int + 1) as char;
    }
    CoversMove(score, Config(l, m, r, lp, mp, '['), Config(l, m, r, lp, (mp as int + 1) as char, 'A'), t);
  }

  /** The middle start letter loop. */
  method SearchMiddlePosition(score: Config -> real, l: int, m: int, r: int, lp: char, s: Scan)
    returns (t: Scan)
    requires ValidConfig(Config(l, m, r, lp, 'A', 'A'))
    requires Covers(score, Config(l, m, r, lp, 'A', 'A'), s)
    ensures Covers(score, Config(l, m, r, (lp as int + 1) as char, 'A', 'A'), t)
    ensures t.scored == s.scored + Size * Size
  {
    t := s;
    var mp := 'A';
    while mp <= 'Z'
      invariant 'A' <= mp <= '['
      invariant Covers(score, Config(l, m, r, lp, mp, 'A'), t)
      invariant t.scored == s.scored + Size * (mp as int - 'A' as int)
    {
      t := SearchRightPosition(score, l, m, r, lp, mp, t);
      mp := (mp as int + 1) as char;
    }
    CoversMove(score, Config(l, m, r, lp, '[', 'A'), Config(l, m, r, (lp as int + 1) as char, 'A', 'A'), t);
  }

  /** The left start letter loop: all 17576 start positions of one rotor order. */
  method SearchLeftPosition(score: Config -> real, l: int, m: int, r: int, s: Scan)
    returns (t: Scan)
    requires ValidConfig(Config(l, m, r, 'A', 'A', 'A'))
    requires Covers(score, Config(l, m, r, 'A', 'A', 'A'), s)
    ensures Covers(score, Config(l, m, r + 1, 'A', 'A', 'A'), t)
    ensures t.scored == s.scored + PositionCount
  {
    t := s;
    var lp := 'A';
    while lp <= 'Z'
      invariant 'A' <= lp <= '['
      invariant Covers(score, Config(l, m, r, lp, 'A', 'A'), t)
      invariant t.scored == s.scored + Size * Size * (lp as int - 'A' as int)
    {
      t := SearchMiddlePosition(score, l, m, r, lp, t);
      lp := (lp as int + 1) as char;
    }
    CoversMove(score, Config(l, m, r, '[', 'A', 'A'), Config(l, m, r + 1, 'A', 'A', 'A'), t);
  }

  /** The right rotor loop, skipping the two rotors already in use. */
  method SearchRightRotor(score: Config -> real, l: int, m: int, s: Scan)
    returns (t: Scan)
    requires 0 <= l < RotorCount && 0 <= m < RotorCount && l != m
    requires Covers(score, Config(l, m, 0, 'A', 'A', 'A'), s)
    ensures Covers(score, Config(l, m + 1, 0, 'A', 'A', 'A'), t)
    ensures t.scored == s.scored + 3 * PositionCount
  {
    t := s;
    var r := 0;
    while r < RotorCount
      invariant 0 <= r <= RotorCount
      invariant Covers(score, Config(l, m, r, 'A', 'A', 'A'), t)
      invariant t.scored == s.scored + PositionCount * (r - (if l < r then 1 else 0) - (if m < r then 1 else 0))
    {
      if r == l || r == m {
        CoversMove(score, Config(l, m, r, 'A', 'A', 'A'), Config(l, m, r + 1, 'A', 'A', 'A'), t);
        r := r + 1;
        continue;
      }
      t := SearchLeftPosition(score, l, m, r, t);
      r := r + 1;
    }
    CoversMove(score, Config(l, m, RotorCount, 'A', 'A', 'A'), Config(l, m + 1, 0, 'A', 'A', 'A'), t);
  }

  /** The middle rotor loop, skipping the left rotor. */
  method SearchMiddleRotor(score: Config -> real, l: int, s: Scan)
    returns (t: Scan)
    requires 0 <= l < RotorCount
    requires Covers(score, Config(l, 0, 0, 'A', 'A', 'A'), s)
    ensures Covers(score, Config(l + 1, 0, 0, 'A', 'A', 'A'), t)
    ensures t.scored == s.scored + 12 * PositionCount
  {
    t := s;
    var m := 0;
    while m < RotorCount
      invariant 0 <= m <= RotorCount
      invariant Covers(score, Config(l, m, 0, 'A', 'A', 'A'), t)
      invariant t.scored == s.scored + 3 * PositionCount * (m - (if l < m then 1 else 0))
    {
      if m == l {
        CoversMove(score, Config(l, m, 0, 'A', 'A', 'A'), Config(l, m + 1, 0, 'A', 'A', 'A'), t);
        m := m + 1;
        continue;
      }
      t := SearchRightRotor(score, l, m, t);
      m := m + 1;
    }
    CoversMove(score, Config(l, RotorCount, 0, 'A', 'A', 'A'), Config(l + 1, 0, 0, 'A', 'A', 'A'), t);
  }

  /**
    `exhaustiveSearch`: the result is null exactly when no valid
    configuration scores above `-Double.MAX_VALUE`; otherwise it is a valid
    configuration whose score is at least every other's, and the first
    such in the loop order, since a tie never replaces the best. All
    5 * 4 * 3 * 26^3 = 1054560 configurations with distinct rotors are scored.
   */
  method ExhaustiveSearch(score: Config -> real) returns (best: Option<Config>, scored: nat)
    ensures scored == 1054560
    ensures best.None? <==> forall d :: ValidConfig(d) ==> score(d) <= MinScore
    ensures best.Some? ==> ValidConfig(best.value) && MinScore < score(best.value)
    ensures best.Some? ==> forall d :: ValidConfig(d) ==> score(d) <= score(best.value)
    ensures best.Some? ==> forall d :: ValidConfig(d) && Before(d, best.value) ==> score(d) < score(best.value)
  {
    var t := Scan(None, MinScore, 0);
    var l := 0;
    while l < RotorCount
      invariant 0 <= l <= RotorCount
      invariant Covers(score, Config(l, 0, 0, 'A', 'A', 'A'), t)
      invariant t.scored == 12 * PositionCount * l
    {
      t := SearchMiddleRotor(score, l, t);
      l := l + 1;
    }
    assert forall d :: ValidConfig(d) ==> Before(d, Config(RotorCount, 0, 0, 'A', 'A', 'A'));
    best, scored := t.best, t.scored;
  }
}
