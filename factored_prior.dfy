/**
 * The factored (dynamic Bayesian network) prior of the collision-avoidance
 * domain: the layout of the state features, the count vector an obstacle
 * node gets for each previous obstacle row, and the deterministic counts of
 * the agent-y node.
 */
module FactoredPriors {
  import opened Probability
  import opened DiscreteSpace
  import opened Domains
  import opened Priors

  const AGENT_X_FEATURE: nat := 0
  const AGENT_Y_FEATURE: nat := 1
  const FIRST_OBSTACLE: nat := 2

  /** `CollisionAvoidanceFactoredPrior`: the grid, the noise level and the pseudo-count mass. */
  datatype FactoredPrior = FactoredPrior(width: nat, height: nat, numObstacles: nat, noise: real, countsTotal: real) {

    predicate Valid()
    {
      width > 0 && height > 0 && numObstacles > 0 && 0.0 <= noise < 1.0 && countsTotal > 0.0
    }

    function Dims(): Grid
    {
      Grid(width, height, numObstacles)
    }

    function NumStateFeatures(): nat
    {
      FIRST_OBSTACLE + numObstacles
    }

    /** The feature that holds the row of obstacle `k`. */
    function ObstacleFeature(k: nat): nat
    {
      FIRST_OBSTACLE + k
    }

    /** The value range of each state feature: x over the columns, y and every obstacle over the rows. */
    function FeatureSizes(): seq<nat>
    {
      [width, height] + Repeat(height, numObstacles)
    }

    /**
     * `obstacleTransition(y)`: the counts over the next row of an obstacle
     * that is at row `y`, the blended obstacle law scaled by the total mass.
     */
    function ObstacleTransition(y: int): (counts: seq<real>)
      requires height > 0
      ensures |counts| == height
    {
      Scale(countsTotal, BlendedLaw(height, noise, y))
    }

    /**
     * `setAgentYTransition`'s counts: the whole mass on the row the agent
     * reaches from `y` with move `m`.
     */
    function AgentYCounts(m: Move, y: int): (counts: seq<real>)
      requires height > 0
      ensures |counts| == height
    {
      PointMass(height, NextY(height, y, m), countsTotal)
    }
  }

  /** The factored feature values of a state: x, y, then one row per obstacle. */
  function Features(s: CollisionAvoidanceState): seq<int>
  {
    [s.xAgent, s.yAgent] + s.obstacles
  }

  /**
   * The feature layout: x is feature 0, y feature 1 and obstacle k feature
   * 2 + k, with 2 + numObstacles features in all, each with the right range.
   */
  lemma FeatureLayout(p: FactoredPrior, s: CollisionAvoidanceState)
    requires |s.obstacles| == p.numObstacles
    ensures |p.FeatureSizes()| == p.NumStateFeatures() && |Features(s)| == p.NumStateFeatures()
    ensures p.FeatureSizes()[AGENT_X_FEATURE] == p.width && p.FeatureSizes()[AGENT_Y_FEATURE] == p.height
    ensures Features(s)[AGENT_X_FEATURE] == s.xAgent && Features(s)[AGENT_Y_FEATURE] == s.yAgent
    ensures forall k :: 0 <= k < p.numObstacles ==>
      AGENT_Y_FEATURE < p.ObstacleFeature(k) < p.NumStateFeatures()
      && p.FeatureSizes()[p.ObstacleFeature(k)] == p.height
      && Features(s)[p.ObstacleFeature(k)] == s.obstacles[k]
  {
  }

  /** The feature tuples span exactly as many values as the flat state space. */
  lemma FeatureSpaceSize(p: FactoredPrior)
    ensures Product(p.FeatureSizes()) == p.Dims().NumStates()
  {
    var rows := Repeat(p.height, p.numObstacles);
    var sizes := p.FeatureSizes();
    assert sizes[1..] == [p.height] + rows;
    assert sizes[1..][1..] == rows;
    ProductRepeat(p.height, p.numObstacles);
    var k := Pow(p.height, p.numObstacles);
    assert Product(sizes) == p.width * (p.height * k);
    MulRegroup(p.width, p.height, k);
  }

  /** A feature tuple is in range exactly when the state it describes is legal. */
  lemma FeaturesInSpace(p: FactoredPrior, s: CollisionAvoidanceState)
    ensures InSpace(p.FeatureSizes(), Features(s)) <==> Legal(p.Dims(), s)
  {
    var agent, agentSizes := [s.xAgent, s.yAgent], [p.width as nat, p.height];
    InSpaceConcat(agentSizes, p.Dims().ObstacleSpace(), agent, s.obstacles);
    assert InSpace(agentSizes, agent) <==> 0 <= s.xAgent < p.width && 0 <= s.yAgent < p.height by {
      assert agent[0] == s.xAgent && agent[1] == s.yAgent;
    }
  }

  /**
   * The obstacle node's counts for previous row `y`: one per row, each the
   * total mass times the blended probability of that row, zero more than
   * one row away, non-negative and adding up to the total mass.
   */
  lemma ObstacleTransitionCounts(p: FactoredPrior, y: int)
    requires p.Valid() && 0 <= y < p.height
    ensures NonNegative(p.ObstacleTransition(y))
    ensures Sum(p.ObstacleTransition(y)) == p.countsTotal
    ensures forall newY :: 0 <= newY < p.height ==>
      p.ObstacleTransition(y)[newY] == Mul(p.countsTotal, ObstacleTransProb(p.height, p.noise, y, newY))
    ensures forall newY :: 0 <= newY < p.height && (newY - y > 1 || y - newY > 1) ==>
      p.ObstacleTransition(y)[newY] == 0.0
  {
    var law := BlendedLaw(p.height, p.noise, y);
    BlendedLawDistribution(p.height, p.noise, y);
    ScaledDistribution(p.countsTotal, law);
    forall newY | 0 <= newY < p.height && (newY - y > 1 || y - newY > 1)
      ensures p.ObstacleTransition(y)[newY] == 0.0
    {
      ObstacleTransProbBounds(p.height, p.noise, y, newY);
    }
  }

  /**
   * The agent-y node's counts: the total mass sits on the domain's next row
   * for the move, and on no other row.
   */
  lemma AgentYCountsDeterministic(p: FactoredPrior, m: Move, y: int)
    requires p.Valid() && 0 <= y < p.height
    ensures NonNegative(p.AgentYCounts(m, y)) && Sum(p.AgentYCounts(m, y)) == p.countsTotal
    ensures forall newY :: 0 <= newY < p.height ==>
      (p.AgentYCounts(m, y)[newY] != 0.0 <==> newY == NextY(p.height, y, m))
    ensures p.AgentYCounts(m, y)[NextY(p.height, y, m)] == p.countsTotal
  {
    PointMassSum(p.height, NextY(p.height, y, m), p.countsTotal);
    forall newY | 0 <= newY < p.height
      ensures p.AgentYCounts(m, y)[newY] != 0.0 <==> newY == NextY(p.height, y, m)
    {
      PointMassSupport(p.height, NextY(p.height, y, m), p.countsTotal, newY);
    }
  }

  /**
   * A node of the network: the range of the feature it predicts and a table
   * from parent-value assignments to count vectors over that range. Every
   * count vector has positive mass.
   */
  class DBNNode {
    const valueRange: nat
    var counts: map<seq<int>, seq<real>>

    ghost predicate Valid()
      reads this
    {
      forall parents :: parents in counts ==>
        |counts[parents]| == valueRange && NonNegative(counts[parents]) && Sum(counts[parents]) > 0.0
    }

    constructor (range: nat)
      ensures valueRange == range && counts == map[] && Valid()
    {
      valueRange := range;
      counts := map[];
    }
  }

  /**
   * `setAgentYTransition(a, y, node)`: the agent-y node's counts for parent
   * values (y, a) become the deterministic counts of the agent's move;
   * every other parent assignment keeps its counts.
   */
  method SetAgentYTransition(p: FactoredPrior, a: Move, y: int, node: DBNNode)
    requires p.Valid() && 0 <= y < p.height
    requires node.Valid() && node.valueRange == p.height
    modifies node
    ensures node.Valid()
    ensures node.counts == old(node.counts)[[y, ActionIndex(a)] := p.AgentYCounts(a, y)]
  {
    AgentYCountsDeterministic(p, a, y);
    node.counts := node.counts[[y, ActionIndex(a)] := p.AgentYCounts(a, y)];
  }
}
