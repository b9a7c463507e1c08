/**
  The control logic of `SimpleEnigmaMachineAttack.hillClimb` over an
  abstract score (it stands for the fitness of the configuration's
  decryption of the ciphertext). The random draws are inputs: `Draws`
  holds the fresh start the search begins from, what each call of
  `mutate` accepted, and the shuffled rotor list and three letters a
  restart in iteration `i` would use.
 */
module HillClimbing {
  import opened Alphabet
  import opened Configuration

  /** The counter may reach 100; one more non-improvement restarts the search. */
  const Patience: nat := 100

  /** The loop state: `bestConfig`, `bestScore` and `iterationsWithoutImprovement`. */
  datatype Climb = Climb(best: Config, bestScore: real, stale: nat)

  /** What holds at the end of every iteration: distinct rotors, the score of the best, the counter at most 100. */
  predicate Steady(score: Config -> real, s: Climb) {
    ValidConfig(s.best) && s.bestScore == score(s.best) && s.stale <= Patience
  }

  /** The random draws one run consumes. */
  datatype Draws = Draws(first: Restart, moves: (int, Config) -> Move, restarts: seq<Restart>)

  /** Draws the code can produce for `n` iterations: shuffles are permutations, `mutate` accepts only allowed values. */
  ghost predicate Possible(d: Draws, n: int) {
    && WellFormedRestart(d.first)
    && n <= |d.restarts|
    && (forall i :: 0 <= i < |d.restarts| ==> WellFormedRestart(d.restarts[i]))
    && (forall i, c :: ValidConfig(c) ==> AcceptableMove(c, d.moves(i, c)))
  }

  /** A fresh configuration, its score and a zero counter: the start and every restart. */
  function Start(score: Config -> real, r: Restart): (s: Climb)
    requires WellFormedRestart(r)
    ensures Steady(score, s) && s.stale == 0
    ensures s.best == FreshConfig(r)
  {
    var c := FreshConfig(r);
    Climb(c, score(c), 0)
  }

  /**
    One iteration of the loop: score a neighbour, adopt it on a strictly
    greater score, otherwise count a failure and restart once the count
    passes 100.
   */
  function Iterate(score: Config -> real, s: Climb, mv: Move, r: Restart): (t: Climb)
    requires Steady(score, s) && AcceptableMove(s.best, mv) && WellFormedRestart(r)
    ensures Steady(score, t)
    ensures score(Mutate(s.best, mv)) > s.bestScore ==> t.best == Mutate(s.best, mv) && t.stale == 0
    ensures score(Mutate(s.best, mv)) <= s.bestScore ==> t.stale == (s.stale + 1) % (Patience + 1)
    ensures t.stale != 0 ==> t.best == s.best && t.bestScore == s.bestScore
    ensures score(Mutate(s.best, mv)) <= s.bestScore && s.stale == Patience ==> t == Start(score, r)
    ensures t.bestScore < s.bestScore ==> s.stale == Patience && t == Start(score, r)
  {
    var neighbour := Mutate(s.best, mv);
    var sc := score(neighbour);
    if sc > s.bestScore then Climb(neighbour, sc, 0)
    else if s.stale + 1 > Patience then Start(score, r)
    else s.(stale := s.stale + 1)
  }

  /** The state after `n` iterations. */
  function After(score: Config -> real, d: Draws, n: nat): (s: Climb)
    requires Possible(d, n)
    ensures Steady(score, s)
    ensures s.stale <= n
  {
    if n == 0 then Start(score, d.first)
    else
      var p := After(score, d, n - 1);
      Iterate(score, p, d.moves(n - 1, p.best), d.restarts[n - 1])
  }

  /**
    `hillClimb`: `maxIterations` rounds of mutate, score, adopt or count;
    the result is the best configuration of the last climb, whose rotors
    are distinct.
   */
  method HillClimb(score: Config -> real, maxIterations: int, d: Draws) returns (best: Config)
    requires Possible(d, maxIterations)
    ensures ValidConfig(best)
    ensures best == After(score, d, if maxIterations < 0 then 0 else maxIterations).best
  {
    var s := Start(score, d.first);
    var bestConfig, bestScore, stale := s.best, s.bestScore, 0;
    var i := 0;
    while i < maxIterations
      invariant 0 <= i <= (if maxIterations < 0 then 0 else maxIterations)
      invariant Possible(d, i)
      invariant Climb(bestConfig, bestScore, stale) == After(score, d, i)
    {
      ghost var before := Climb(bestConfig, bestScore, stale);
      var neighbour := Mutate(bestConfig, d.moves(i, bestConfig));
      var sc := score(neighbour);
      if sc > bestScore {
        bestConfig, bestScore, stale := neighbour, sc, 0;
      } else {
        stale := stale + 1;
        if stale > Patience {
          var restart := FreshConfig(d.restarts[i]);
          bestConfig, bestScore, stale := restart, score(restart), 0;
        }
      }
      assert Climb(bestConfig, bestScore, stale) == Iterate(score, before, d.moves(i, before.best), d.restarts[i]);
      i := i + 1;
    }
    assert i == if maxIterations < 0 then 0 else maxIterations;
    best := bestConfig;
  }

  /** While the counter is `k`, the best has not changed for the last `k` iterations. */
  lemma {:induction false} StaleKeepsBest(score: Config -> real, d: Draws, n: nat, j: nat)
    requires Possible(d, n)
    requires n - After(score, d, n).stale <= j <= n
    ensures After(score, d, j).best == After(score, d, n).best
    ensures After(score, d, j).bestScore == After(score, d, n).bestScore
    decreases n
  {
    if j < n {
      var p := After(score, d, n - 1);
      var t := After(score, d, n);
      assert t.stale != 0;
      assert t.stale == p.stale + 1;
      StaleKeepsBest(score, d, n - 1, j);
    }
  }

  /**
    The 101st failure in a row always restarts: once the counter stands at
    100 and the neighbour is no better, the next state is the fresh start,
    whatever it scores, and the best before it had stood unchanged for the
    previous 100 iterations.
   */
  lemma RestartAfterStagnation(score: Config -> real, d: Draws, n: nat)
    requires Possible(d, n + 1)
    requires After(score, d, n).stale == Patience
    requires var p := After(score, d, n); score(Mutate(p.best, d.moves(n, p.best))) <= p.bestScore
    ensures n >= Patience
    ensures After(score, d, n + 1) == Start(score, d.restarts[n])
    ensures After(score, d, n + 1).best == FreshConfig(d.restarts[n])
    ensures forall j :: n - Patience <= j <= n ==> After(score, d, j).best == After(score, d, n).best
  {
    forall j | n - Patience <= j <= n
      ensures After(score, d, j).best == After(score, d, n).best
    {
      StaleKeepsBest(score, d, n, j);
    }
  }

  /** The best score drops only at such a restart. */
  lemma ScoreDropsOnlyAtRestart(score: Config -> real, d: Draws, n: nat)
    requires Possible(d, n + 1)
    requires After(score, d, n + 1).bestScore < After(score, d, n).bestScore
    ensures After(score, d, n).stale == Patience
    ensures var p := After(score, d, n); score(Mutate(p.best, d.moves(n, p.best))) <= p.bestScore
    ensures After(score, d, n + 1) == Start(score, d.restarts[n])
  {
  }
}
