/**
 * The priors over the collision-avoidance domain. The observation model is
 * taken as known and the agent's own motion as certain; only the obstacles'
 * behaviour is uncertain, and a single noise level shifts probability from
 * moving to staying. The table prior turns that law into pseudo-counts over
 * (state, action, next state); the factored prior lays the state out as the
 * features <x, y, obstacle 0, ..., obstacle n-1> and keeps one conditional
 * count table per feature.
 */
module Priors {
  import opened Probability
  import opened DiscreteSpace
  import opened Domains

  // ---------------------------------------------------------------------
  // The noise-blended obstacle law
  // ---------------------------------------------------------------------

  /**
   * `obstacleTransProb(y, new_y)`: the true probabilities of moving up and of
   * moving down are each scaled by (1 - noise), and the mass taken from them
   * is added to staying put.
   */
  function ObstacleTransProb(height: int, noise: real, y: int, newY: int): (p: real)
    requires height > 0
    ensures (newY < y - 1 || newY > y + 1) ==> p == 0.0
  {
    var up := (1.0 - noise) * ObstacleProb(height, y, y + 1);
    var down := (1.0 - noise) * ObstacleProb(height, y, y - 1);
    if newY == y + 1 then up
    else if newY == y - 1 then down
    else if newY == y then 1.0 - up - down
    else 0.0
  }

  /** The true law puts all its mass on the rows y - 1, y and y + 1. */
  lemma TrueLawThreeRows(height: int, y: int, newY: int)
    requires height > 0 && 0 <= y < height
    ensures ObstacleProb(height, y, y + 1) + ObstacleProb(height, y, y - 1) + ObstacleProb(height, y, y) == 1.0
    ensures newY != y - 1 && newY != y && newY != y + 1 ==> ObstacleProb(height, y, newY) == 0.0
    ensures 0.0 <= ObstacleProb(height, y, newY) <= 1.0
  {
    ObstacleProbSupport(height, y, newY);
  }

  /**
   * The blended law is the mixture (1 - noise) * true law + noise * (stay put):
   * with probability `noise` the obstacle is believed not to move at all.
   */
  lemma ObstacleTransProbMixture(height: int, noise: real, y: int, newY: int)
    requires height > 0 && 0 <= y < height
    ensures ObstacleTransProb(height, noise, y, newY)
         == (1.0 - noise) * ObstacleProb(height, y, newY) + (if newY == y then noise else 0.0)
  {
    TrueLawThreeRows(height, y, newY);
    var u, d, s := ObstacleProb(height, y, y + 1), ObstacleProb(height, y, y - 1), ObstacleProb(height, y, y);
    if newY == y {
      assert s == 1.0 - u - d;
      assert (1.0 - noise) * s == (1.0 - noise) - (1.0 - noise) * u - (1.0 - noise) * d;
    }
  }

  /** Without noise the prior believes exactly the true obstacle law. */
  lemma NoiseFreeIsTrueLaw(height: int, y: int, newY: int)
    requires height > 0 && 0 <= y < height
    ensures ObstacleTransProb(height, 0.0, y, newY) == ObstacleProb(height, y, newY)
  {
    ObstacleTransProbMixture(height, 0.0, y, newY);
  }

  lemma MulUnit(a: real, q: real)
    requires 0.0 <= a && 0.0 <= q <= 1.0
    ensures 0.0 <= a * q <= a
    ensures 0.0 <= Mul(a, q) <= a
  {
  }

  /**
   * For a noise level in [0, 1] the blended law is a probability, vanishes
   * outside the grid and vanishes more than one row away from `y`.
   */
  lemma ObstacleTransProbBounds(height: int, noise: real, y: int, newY: int)
    requires height > 0 && 0 <= y < height && 0.0 <= noise <= 1.0
    ensures 0.0 <= ObstacleTransProb(height, noise, y, newY) <= 1.0
    ensures newY < 0 || newY >= height || newY - y > 1 || y - newY > 1 ==>
      ObstacleTransProb(height, noise, y, newY) == 0.0
  {
    ObstacleTransProbMixture(height, noise, y, newY);
    TrueLawThreeRows(height, y, newY);
    ObstacleProbSupport(height, y, newY);
    MulUnit(1.0 - noise, ObstacleProb(height, y, newY));
  }

  /** The blended law from row `y` as a vector over the rows. */
  function BlendedLaw(height: int, noise: real, y: int): (law: seq<real>)
    requires height > 0
    ensures |law| == height
  {
    seq(height, newY => ObstacleTransProb(height, noise, y, newY))
  }

  /** For every noise level in [0, 1] the blended law is a distribution over the rows. */
  lemma BlendedLawDistribution(height: int, noise: real, y: int)
    requires height > 0 && 0 <= y < height && 0.0 <= noise <= 1.0
    ensures NonNegative(BlendedLaw(height, noise, y))
    ensures Sum(BlendedLaw(height, noise, y)) == 1.0
  {
    var law := BlendedLaw(height, noise, y);
    var moved := Scale(1.0 - noise, ObstacleLaw(height, y));
    var kept := PointMass(height, y, noise);
    forall newY | 0 <= newY < height
      ensures law[newY] == Add(moved, kept)[newY] && law[newY] >= 0.0
    {
      ObstacleTransProbMixture(height, noise, y, newY);
      ObstacleTransProbBounds(height, noise, y, newY);
    }
    assert law == Add(moved, kept);
    SumAdd(moved, kept);
    SumScale(1.0 - noise, ObstacleLaw(height, y));
    ObstacleLawSumsToOne(height, y);
    PointMassSum(height, y, noise);
  }

  lemma MulMonotone(a: real, b: real, m: real)
    requires a <= b && m >= 0.0
    ensures a * m <= b * m
    ensures a < b && m > 0.0 ==> a * m < b * m
  {
  }

  /**
   * More noise never lowers the probability of staying and never raises the
   * probabilities of moving up or down; on a grid of more than one row the
   * probability of staying strictly grows with the noise.
   */
  lemma NoiseMonotone(height: int, noise: real, noise': real, y: int)
    requires height > 0 && 0 <= y < height && 0.0 <= noise <= noise' <= 1.0
    ensures ObstacleTransProb(height, noise, y, y) <= ObstacleTransProb(height, noise', y, y)
    ensures ObstacleTransProb(height, noise', y, y + 1) <= ObstacleTransProb(height, noise, y, y + 1)
    ensures ObstacleTransProb(height, noise', y, y - 1) <= ObstacleTransProb(height, noise, y, y - 1)
    ensures height > 1 && noise < noise' ==>
      ObstacleTransProb(height, noise, y, y) < ObstacleTransProb(height, noise', y, y)
  {
    var u, d := ObstacleProb(height, y, y + 1), ObstacleProb(height, y, y - 1);
    TrueLawThreeRows(height, y, y);
    ObstacleProbSupport(height, y, y + 1);
    ObstacleProbSupport(height, y, y - 1);
    ObstacleLawValues(height, y);
    MulMonotone(1.0 - noise', 1.0 - noise, u);
    MulMonotone(1.0 - noise', 1.0 - noise, d);
    MulMonotone(1.0 - noise', 1.0 - noise, u + d);
  }

  /**
   * At noise 0.1 an interior obstacle moves up or down with probability 0.225
   * each and stays with 0.55; at the top and bottom rows it leaves the one
   * open direction with 0.225 and stays with 0.775.
   */
  lemma TenthNoiseValues(height: int, y: int)
    requires height > 0 && 0 <= y < height
    ensures 0 < y < height - 1 ==>
      ObstacleTransProb(height, 0.1, y, y + 1) == 0.225 && ObstacleTransProb(height, 0.1, y, y - 1) == 0.225
      && ObstacleTransProb(height, 0.1, y, y) == 0.55
    ensures height > 1 && y == height - 1 ==>
      ObstacleTransProb(height, 0.1, y, y - 1) == 0.225 && ObstacleTransProb(height, 0.1, y, y) == 0.775
    ensures height > 1 && y == 0 ==>
      ObstacleTransProb(height, 0.1, y, y + 1) == 0.225 && ObstacleTransProb(height, 0.1, y, y) == 0.775
  {
    ObstacleLawValues(height, y);
  }

  // ---------------------------------------------------------------------
  // All obstacles together
  // ---------------------------------------------------------------------

  /** Obstacles move independently: the product of the blended law over every obstacle. */
  function JointTransProb(height: int, noise: real, obstacles: seq<int>, newObstacles: seq<int>): (p: real)
    requires height > 0 && |newObstacles| == |obstacles|
    ensures InSpace(Repeat(height, |obstacles|), obstacles) && 0.0 <= noise <= 1.0 ==> 0.0 <= p <= 1.0
  {
    if obstacles == [] then 1.0
    else
      var first := ObstacleTransProb(height, noise, obstacles[0], newObstacles[0]);
      var rest := JointTransProb(height, noise, obstacles[1..], newObstacles[1..]);
      JointTransProbStep(height, noise, obstacles, newObstacles, rest);
      Mul(first, rest)
  }

  /** One factor more keeps the joint probability in [0, 1]. */
  lemma JointTransProbStep(height: int, noise: real, obstacles: seq<int>, newObstacles: seq<int>, rest: real)
    requires height > 0 && |newObstacles| == |obstacles| && obstacles != []
    requires InSpace(Repeat(height, |obstacles[1..]|), obstacles[1..]) && 0.0 <= noise <= 1.0 ==> 0.0 <= rest <= 1.0
    ensures InSpace(Repeat(height, |obstacles|), obstacles) && 0.0 <= noise <= 1.0 ==>
      0.0 <= Mul(ObstacleTransProb(height, noise, obstacles[0], newObstacles[0]), rest) <= 1.0
  {
    if InSpace(Repeat(height, |obstacles|), obstacles) && 0.0 <= noise <= 1.0 {
      assert InSpace(Repeat(height, |obstacles[1..]|), obstacles[1..]);
      var first := ObstacleTransProb(height, noise, obstacles[0], newObstacles[0]);
      ObstacleTransProbBounds(height, noise, obstacles[0], newObstacles[0]);
      MulUnit(first, rest);
    }
  }

  lemma JointTransProbCons(height: int, noise: real, obstacles: seq<int>, newObstacles: seq<int>)
    requires height > 0 && |newObstacles| == |obstacles| && obstacles != []
    ensures JointTransProb(height, noise, obstacles, newObstacles)
         == Mul(ObstacleTransProb(height, noise, obstacles[0], newObstacles[0]),
                JointTransProb(height, noise, obstacles[1..], newObstacles[1..]))
  {
  }

  /** The blended law of every obstacle, one factor per obstacle. */
  function ObstacleLaws(height: int, noise: real, obstacles: seq<int>): (laws: seq<seq<real>>)
    requires height > 0
    ensures |laws| == |obstacles| && Uniform(laws, height)
  {
    seq(|obstacles|, k requires 0 <= k < |obstacles| => BlendedLaw(height, noise, obstacles[k]))
  }

  /** Dropping the first obstacle drops its factor. */
  lemma ObstacleLawsTail(height: int, noise: real, obstacles: seq<int>)
    requires height > 0 && obstacles != []
    ensures ObstacleLaws(height, noise, obstacles)[1..] == ObstacleLaws(height, noise, obstacles[1..])
  {
    var laws, rest := ObstacleLaws(height, noise, obstacles), ObstacleLaws(height, noise, obstacles[1..]);
    forall k | 0 <= k < |rest|
      ensures laws[1..][k] == rest[k]
    {
      assert obstacles[1..][k] == obstacles[k + 1];
    }
  }

  /** The joint law of the obstacles as a vector over obstacle indices. */
  function JointLaw(height: int, noise: real, obstacles: seq<int>): seq<real>
    requires height > 0
  {
    ProductLaw(ObstacleLaws(height, noise, obstacles))
  }

  /** A joint move in which some obstacle jumps more than one row has probability 0. */
  lemma {:induction false} JointTransProbSupport(height: int, noise: real, obstacles: seq<int>, newObstacles: seq<int>, k: int)
    requires height > 0 && |newObstacles| == |obstacles| && InSpace(Repeat(height, |obstacles|), obstacles) && 0.0 <= noise <= 1.0
    requires 0 <= k < |obstacles| && (newObstacles[k] - obstacles[k] > 1 || obstacles[k] - newObstacles[k] > 1)
    ensures JointTransProb(height, noise, obstacles, newObstacles) == 0.0
  {
    var first := ObstacleTransProb(height, noise, obstacles[0], newObstacles[0]);
    var rest := JointTransProb(height, noise, obstacles[1..], newObstacles[1..]);
    JointTransProbCons(height, noise, obstacles, newObstacles);
    if k == 0 {
      ObstacleTransProbBounds(height, noise, obstacles[0], newObstacles[0]);
      assert first == 0.0;
    } else {
      assert InSpace(Repeat(height, |obstacles[1..]|), obstacles[1..]);
      JointTransProbSupport(height, noise, obstacles[1..], newObstacles[1..], k - 1);
      assert rest == 0.0;
    }
    assert Mul(first, rest) == 0.0;
  }

  /** The joint law is a distribution over the obstacle space, of size height^n. */
  lemma JointLawDistribution(height: int, noise: real, obstacles: seq<int>)
    requires height > 0 && InSpace(Repeat(height, |obstacles|), obstacles) && 0.0 <= noise <= 1.0
    ensures |JointLaw(height, noise, obstacles)| == Pow(height, |obstacles|)
    ensures NonNegative(JointLaw(height, noise, obstacles))
    ensures Sum(JointLaw(height, noise, obstacles)) == 1.0
  {
    var laws := ObstacleLaws(height, noise, obstacles);
    forall k | 0 <= k < |laws|
      ensures NonNegative(laws[k]) && Sum(laws[k]) == 1.0
    {
      BlendedLawDistribution(height, noise, obstacles[k]);
    }
    ProductLawDistribution(laws);
    ProductLawLength(laws, height);
  }

  /** The recursive joint probability is the product-law probability of the same move. */
  lemma {:induction false} JointTransProbIsProduct(height: int, noise: real, obstacles: seq<int>, newObstacles: seq<int>)
    requires height > 0 && |newObstacles| == |obstacles|
    requires forall k :: 0 <= k < |newObstacles| ==> 0 <= newObstacles[k] < height
    ensures JointTransProb(height, noise, obstacles, newObstacles)
         == ProductProb(ObstacleLaws(height, noise, obstacles), newObstacles)
  {
    if obstacles != [] {
      var laws := ObstacleLaws(height, noise, obstacles);
      var head := ObstacleTransProb(height, noise, obstacles[0], newObstacles[0]);
      var tail := JointTransProb(height, noise, obstacles[1..], newObstacles[1..]);
      ObstacleLawsTail(height, noise, obstacles);
      assert ProductProb(laws[1..], newObstacles[1..]) == tail by {
        JointTransProbIsProduct(height, noise, obstacles[1..], newObstacles[1..]);
      }
      assert laws[0][newObstacles[0]] == head;
      assert ProductProb(laws, newObstacles) == Mul(laws[0][newObstacles[0]], ProductProb(laws[1..], newObstacles[1..])) by {
        ProductProbCons(laws, newObstacles);
      }
      assert JointTransProb(height, noise, obstacles, newObstacles) == Mul(head, tail) by {
        JointTransProbCons(height, noise, obstacles, newObstacles);
      }
    }
  }

  /**
   * The entry of the joint law at the index of `newObstacles` is the joint
   * probability of that move: the vector layout and the mixed-radix obstacle
   * index agree.
   */
  lemma JointLawAt(height: int, noise: real, obstacles: seq<int>, newObstacles: seq<int>)
    requires height > 0 && |obstacles| == |newObstacles|
    requires InSpace(Repeat(height, |newObstacles|), newObstacles)
    ensures 0 <= Encode(Repeat(height, |newObstacles|), newObstacles) < |JointLaw(height, noise, obstacles)|
    ensures JointLaw(height, noise, obstacles)[Encode(Repeat(height, |newObstacles|), newObstacles)]
         == JointTransProb(height, noise, obstacles, newObstacles)
  {
    ProductLawAt(ObstacleLaws(height, noise, obstacles), height, newObstacles);
    JointTransProbIsProduct(height, noise, obstacles, newObstacles);
  }

  // ---------------------------------------------------------------------
  // The table prior: pseudo-counts over (state, action, next state)
  // ---------------------------------------------------------------------

  /** `j` is a state the agent reaches from `i` under action `a`, whatever the obstacles do. */
  predicate IsSuccessor(g: Grid, i: int, a: int, j: int)
  {
    && g.Valid() && Positive(g.StateRadices())
    && 0 <= i < g.NumStates() && 0 <= j < g.NumStates() && 0 <= a < NUM_ACTIONS
    && var v, w := Decode(g.StateRadices(), i), Decode(g.StateRadices(), j);
       w[2] == NextX(v[2]) && w[1] == NextY(g.height, v[1], MoveOf(a))
  }

  /** The (state, action, next state) entry for a move of the obstacles from `obstacles` to `newObstacles`. */
  function TransitionKey(g: Grid, x: int, y: int, a: nat, obstacles: seq<int>, newObstacles: seq<int>): (int, int, int)
    requires g.Valid() && a < NUM_ACTIONS
    requires |obstacles| == g.numObstacles && |newObstacles| == g.numObstacles
  {
    (StateIndex(g, x, y, ObstacleIndex(g, obstacles)), a,
     StateIndex(g, NextX(x), NextY(g.height, y, MoveOf(a)), ObstacleIndex(g, newObstacles)))
  }

  /** Every entry the table prior writes links a state to one of its agent successors. */
  lemma TransitionKeySuccessor(g: Grid, x: int, y: int, a: nat, obstacles: seq<int>, newObstacles: seq<int>)
    requires g.Valid() && 1 <= x < g.width && 0 <= y < g.height && a < NUM_ACTIONS
    requires InSpace(g.ObstacleSpace(), obstacles) && InSpace(g.ObstacleSpace(), newObstacles)
    ensures var key := TransitionKey(g, x, y, a, obstacles, newObstacles);
      IsSuccessor(g, key.0, key.1, key.2)
  {
    SpaceSizes(g);
    var o, o' := ObstacleIndex(g, obstacles), ObstacleIndex(g, newObstacles);
    ObstacleIndexBijection(g, obstacles, 0);
    ObstacleIndexBijection(g, newObstacles, 0);
    StateIndexBijection(g, x, y, o, 0);
    StateIndexBijection(g, NextX(x), NextY(g.height, y, MoveOf(a)), o', 0);
  }

  /** The index of the agent's successor position with every obstacle at row 0. */
  function SuccessorStart(g: Grid, x: int, y: int, a: nat): int
    requires g.Valid() && a < NUM_ACTIONS
  {
    StateIndex(g, NextX(x), NextY(g.height, y, MoveOf(a)), 0)
  }

  /** The successor's block of next states, one per obstacle vector, lies inside the state space. */
  lemma SuccessorBlock(g: Grid, x: int, y: int, a: nat)
    requires g.Valid() && 1 <= x < g.width && 0 <= y < g.height && a < NUM_ACTIONS
    ensures 0 <= SuccessorStart(g, x, y, a)
    ensures SuccessorStart(g, x, y, a) + g.NumObstacleStates() <= g.NumStates()
  {
    var ny := NextY(g.height, y, MoveOf(a));
    PowPositive(g.height, g.numObstacles);
    var k := g.NumObstacleStates();
    StateIndexBijection(g, NextX(x), ny, 0, 0);
    StateIndexBijection(g, NextX(x), ny, k - 1, 0);
    StateIndexShift(g, NextX(x), ny, k - 1);
  }

  lemma JointLawLength(height: int, noise: real, obstacles: seq<int>)
    requires height > 0
    ensures |JointLaw(height, noise, obstacles)| == Pow(height, |obstacles|)
  {
    ProductLawLength(ObstacleLaws(height, noise, obstacles), height);
  }

  /**
   * The pseudo-counts over next states for one (state, action) pair: the
   * successor's block holds `total` times the joint obstacle law, and every
   * other next state holds nothing.
   */
  function TransitionCountVector(g: Grid, noise: real, total: real, x: int, y: int, a: nat, obstacles: seq<int>): (v: seq<real>)
    requires g.Valid() && 1 <= x < g.width && 0 <= y < g.height && a < NUM_ACTIONS
    requires |obstacles| == g.numObstacles
    ensures |v| == g.NumStates()
  {
    SuccessorBlock(g, x, y, a);
    JointLawLength(g.height, noise, obstacles);
    Embed(g.NumStates(), SuccessorStart(g, x, y, a), Scale(total, JointLaw(g.height, noise, obstacles)))
  }

  /**
   * The counts of one (state, action) pair are non-negative and add up to
   * the prior's total pseudo-count mass.
   */
  lemma TransitionCountVectorMass(g: Grid, noise: real, total: real, x: int, y: int, a: nat, obstacles: seq<int>)
    requires g.Valid() && 1 <= x < g.width && 0 <= y < g.height && a < NUM_ACTIONS
    requires InSpace(g.ObstacleSpace(), obstacles) && 0.0 <= noise <= 1.0
    ensures Sum(TransitionCountVector(g, noise, total, x, y, a, obstacles)) == total
    ensures total >= 0.0 ==> NonNegative(TransitionCountVector(g, noise, total, x, y, a, obstacles))
  {
    var law := JointLaw(g.height, noise, obstacles);
    JointLawDistribution(g.height, noise, obstacles);
    SuccessorBlock(g, x, y, a);
    EmbedMass(g.NumStates(), SuccessorStart(g, x, y, a), Scale(total, law));
    SumScale(total, law);
    if total >= 0.0 {
      NonNegativeScale(total, law);
    }
  }

  /**
   * The successor with the obstacles at `newObstacles` receives `total` times
   * the joint probability of that obstacle move.
   */
  lemma TransitionCountVectorAt(g: Grid, noise: real, total: real, x: int, y: int, a: nat,
                                obstacles: seq<int>, newObstacles: seq<int>)
    requires g.Valid() && 1 <= x < g.width && 0 <= y < g.height && a < NUM_ACTIONS
    requires InSpace(g.ObstacleSpace(), obstacles) && InSpace(g.ObstacleSpace(), newObstacles)
    ensures var key := TransitionKey(g, x, y, a, obstacles, newObstacles);
      0 <= key.2 < g.NumStates()
      && TransitionCountVector(g, noise, total, x, y, a, obstacles)[key.2]
         == Mul(total, JointTransProb(g.height, noise, obstacles, newObstacles))
  {
    var o := ObstacleIndex(g, newObstacles);
    var law := JointLaw(g.height, noise, obstacles);
    ObstacleIndexBijection(g, newObstacles, 0);
    StateIndexShift(g, NextX(x), NextY(g.height, y, MoveOf(a)), o);
    SuccessorBlock(g, x, y, a);
    JointLawLength(g.height, noise, obstacles);
    JointLawAt(g.height, noise, obstacles, newObstacles);
    assert law[o] == JointTransProb(g.height, noise, obstacles, newObstacles);
    assert Scale(total, law)[o] == Mul(total, law[o]);
  }

  /** Only the agent's successors of a (state, action) pair receive counts. */
  lemma TransitionCountVectorSupport(g: Grid, noise: real, total: real, x: int, y: int, a: nat,
                                     obstacles: seq<int>, j: int)
    requires g.Valid() && 1 <= x < g.width && 0 <= y < g.height && a < NUM_ACTIONS
    requires InSpace(g.ObstacleSpace(), obstacles)
    requires 0 <= j < g.NumStates() && TransitionCountVector(g, noise, total, x, y, a, obstacles)[j] != 0.0
    ensures IsSuccessor(g, StateIndex(g, x, y, ObstacleIndex(g, obstacles)), a, j)
  {
    var start := SuccessorStart(g, x, y, a);
    var ny := NextY(g.height, y, MoveOf(a));
    SuccessorBlock(g, x, y, a);
    JointLawLength(g.height, noise, obstacles);
    var o := j - start;
    assert 0 <= o < g.NumObstacleStates();
    StateIndexShift(g, NextX(x), ny, o);
    SpaceSizes(g);
    ObstacleIndexBijection(g, obstacles, 0);
    StateIndexBijection(g, x, y, ObstacleIndex(g, obstacles), 0);
    StateIndexBijection(g, NextX(x), ny, o, 0);
  }

  /** `key` lies in the block of `k` successor entries of pair (i, a) that starts at `start`. */
  predicate InBlock(key: (int, int, int), i: int, a: int, start: int, k: int)
  {
    key.0 == i && key.1 == a && start <= key.2 < start + k
  }

  /**
   * `m` is `m0` with the first `o` entries of the successor block of (i, a)
   * written from `v`: those entries hold `v`, every entry of `m0` outside the
   * block is kept, and no key outside the block is added.
   */
  predicate BlockWritten(m0: map<(int, int, int), real>, m: map<(int, int, int), real>,
                         i: int, a: int, start: int, k: int, o: int, v: seq<real>)
    requires 0 <= start && start + o <= |v|
  {
    && (forall j :: start <= j < start + o ==> (i, a, j) in m && m[(i, a, j)] == v[j])
    && (forall key :: key in m0 && !InBlock(key, i, a, start, k) ==> key in m && m[key] == m0[key])
    && (forall key :: key in m ==> key in m0 || InBlock(key, i, a, start, k))
  }

  /** Writing the next entry of the block extends the written prefix by one. */
  lemma ExtendBlock(m0: map<(int, int, int), real>, m: map<(int, int, int), real>,
                    i: int, a: int, start: int, k: int, o: int, v: seq<real>)
    requires 0 <= start && 0 <= o < k && start + o < |v|
    requires BlockWritten(m0, m, i, a, start, k, o, v)
    ensures BlockWritten(m0, m[(i, a, start + o) := v[start + o]], i, a, start, k, o + 1, v)
  {
    assert InBlock((i, a, start + o), i, a, start, k);
  }

  /**
   * `CollisionAvoidanceTablePrior`: the grid, the noise level, the total
   * pseudo-count mass per (state, action) pair and the transition counts
   * written so far, keyed by (state index, action index, next state index).
   */
  class TablePrior {
    const width: nat
    const height: nat
    const numObstacles: nat
    const noise: real
    const totalCounts: real
    var transitionCounts: map<(int, int, int), real>

    function Dims(): Grid
    {
      Grid(width, height, numObstacles)
    }

    ghost predicate Valid()
      reads this
    {
      && Dims().Valid() && 0.0 <= noise < 1.0 && totalCounts > 0.0
      && forall key :: key in transitionCounts ==>
           transitionCounts[key] >= 0.0 && IsSuccessor(Dims(), key.0, key.1, key.2)
    }

    constructor (w: nat, h: nat, n: nat, nu: real, total: real)
      requires w > 0 && h > 0 && n > 0 && 0.0 <= nu < 1.0 && total > 0.0
      ensures width == w && height == h && numObstacles == n && noise == nu && totalCounts == total
      ensures transitionCounts == map[] && Valid()
    {
      width, height, numObstacles, noise, totalCounts := w, h, n, nu, total;
      transitionCounts := map[];
    }

    /**
     * `setTransitionCounts(x, y, a, obstacles, new_obstacles)`: the count of
     * the agent's successor with the obstacles at `newObstacles` becomes the
     * total mass times the product, over all obstacles, of the blended
     * obstacle law.
     */
    method SetTransitionCounts(x: int, y: int, a: nat, obstacles: seq<int>, newObstacles: seq<int>)
      requires Valid()
      requires 1 <= x < width && 0 <= y < height && a < NUM_ACTIONS
      requires InSpace(Dims().ObstacleSpace(), obstacles) && InSpace(Dims().ObstacleSpace(), newObstacles)
      modifies this
      ensures Valid()
      ensures transitionCounts == old(transitionCounts)[TransitionKey(Dims(), x, y, a, obstacles, newObstacles)
                := Mul(totalCounts, JointTransProb(height, noise, obstacles, newObstacles))]
    {
      var key := TransitionKey(Dims(), x, y, a, obstacles, newObstacles);
      var p := JointTransProb(height, noise, obstacles, newObstacles);
      TransitionKeySuccessor(Dims(), x, y, a, obstacles, newObstacles);
      MulUnit(totalCounts, p);
      transitionCounts := transitionCounts[key := Mul(totalCounts, p)];
    }

    /**
     * The counts of one (state, action) pair: `setTransitionCounts` for every
     * obstacle vector the obstacles can move to. Afterwards the successor
     * block of that pair holds its count vector; every entry outside the
     * block keeps its value, and no key outside the block is added.
     */
    method SetStateActionCounts(x: int, y: int, a: nat, obstacles: seq<int>)
      requires Valid()
      requires 1 <= x < width && 0 <= y < height && a < NUM_ACTIONS
      requires InSpace(Dims().ObstacleSpace(), obstacles)
      modifies this
      ensures Valid()
      ensures var i := StateIndex(Dims(), x, y, ObstacleIndex(Dims(), obstacles));
              var start := SuccessorStart(Dims(), x, y, a);
        forall j :: start <= j < start + Dims().NumObstacleStates() ==>
          (i, a, j) in transitionCounts
          && transitionCounts[(i, a, j)] == TransitionCountVector(Dims(), noise, totalCounts, x, y, a, obstacles)[j]
      ensures var i := StateIndex(Dims(), x, y, ObstacleIndex(Dims(), obstacles));
              var start := SuccessorStart(Dims(), x, y, a);
        forall key :: key in old(transitionCounts) && !InBlock(key, i, a, start, Dims().NumObstacleStates()) ==>
          key in transitionCounts && transitionCounts[key] == old(transitionCounts)[key]
      ensures var i := StateIndex(Dims(), x, y, ObstacleIndex(Dims(), obstacles));
              var start := SuccessorStart(Dims(), x, y, a);
        forall key :: key in transitionCounts ==>
          key in old(transitionCounts) || InBlock(key, i, a, start, Dims().NumObstacleStates())
    {
      var g := Dims();
      var i := StateIndex(g, x, y, ObstacleIndex(g, obstacles));
      var start := SuccessorStart(g, x, y, a);
      var k := g.NumObstacleStates();
      ghost var v := TransitionCountVector(g, noise, totalCounts, x, y, a, obstacles);
      SuccessorBlock(g, x, y, a);
      for o := 0 to k
        invariant Valid()
        invariant BlockWritten(old(transitionCounts), transitionCounts, i, a, start, k, o, v)
      {
        var newObstacles := Decode(g.ObstacleSpace(), o);
        assert InSpace(g.ObstacleSpace(), newObstacles)
            && TransitionKey(g, x, y, a, obstacles, newObstacles) == (i, a, start + o)
            && v[start + o] == Mul(totalCounts, JointTransProb(height, noise, obstacles, newObstacles)) by {
          ObstacleIndexBijection(g, [], o);
          StateIndexShift(g, NextX(x), NextY(height, y, MoveOf(a)), o);
          TransitionCountVectorAt(g, noise, totalCounts, x, y, a, obstacles, newObstacles);
        }
        ghost var before := transitionCounts;
        SetTransitionCounts(x, y, a, obstacles, newObstacles);
        ExtendBlock(old(transitionCounts), before, i, a, start, k, o, v);
      }
    }
  }
}
