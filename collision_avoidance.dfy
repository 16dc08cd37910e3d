/**
 * The collision-avoidance domain. An agent crosses a width x height grid
 * from its right-most column to its left-most one, one column per step,
 * choosing each step to go lower-left, left or upper-left; obstacles in the
 * left-most column move up and down at random. A state is the agent's
 * <x, y> position and the y position of every obstacle, plus the dense
 * index under which the domain pools it.
 */
module Domains {
  import opened Outcomes
  import opened Probability
  import opened DiscreteSpace

  // ---------------------------------------------------------------------
  // Actions and constants
  // ---------------------------------------------------------------------

  /** The agent's actions, in the order of the enumeration: indices 0, 1, 2. */
  datatype Move = MoveDown | Stay | MoveUp

  const NUM_ACTIONS: nat := 3
  const MOVE_PENALTY: real := 1.0
  const COLLIDE_PENALTY: real := 1000.0
  /** Probability that an obstacle moves at all; the move is up or down with equal chance. */
  const BLOCK_MOVE_PROB: real := 0.5

  function ActionIndex(m: Move): (i: nat)
    ensures i < NUM_ACTIONS
  {
    match m
    case MoveDown => 0
    case Stay => 1
    case MoveUp => 2
  }

  function MoveOf(i: nat): Move
    requires i < NUM_ACTIONS
  {
    if i == 0 then MoveDown else if i == 1 then Stay else MoveUp
  }

  /** The action space {0, 1, 2} and the enumeration are in one-to-one correspondence. */
  lemma ActionIndexRoundTrip(m: Move, i: nat)
    requires i < NUM_ACTIONS
    ensures MoveOf(ActionIndex(m)) == m
    ensures ActionIndex(MoveOf(i)) == i
  {
  }

  /** Vertical displacement the agent asks for. */
  function Delta(m: Move): int
  {
    match m
    case MoveDown => -1
    case Stay => 0
    case MoveUp => 1
  }

  /** Diagonal moves cost MOVE_PENALTY; moving straight left is free. */
  function MoveCost(m: Move): real
  {
    if m == Stay then 0.0 else MOVE_PENALTY
  }

  // ---------------------------------------------------------------------
  // Grid geometry and the index spaces
  // ---------------------------------------------------------------------

  /** The configured grid and obstacle count. */
  datatype Grid = Grid(width: nat, height: nat, numObstacles: nat) {

    predicate Valid()
    {
      width > 0 && height > 0 && numObstacles > 0
    }

    /** One feature of cardinality `height` per obstacle. */
    function ObstacleSpace(): seq<nat>
    {
      Repeat(height, numObstacles)
    }

    /** height^numObstacles: the size of the obstacle (and observation) space. */
    function NumObstacleStates(): nat
    {
      Pow(height, numObstacles)
    }

    /** Radices of a state index, least significant first: obstacles, then y, then x. */
    function StateRadices(): seq<nat>
    {
      [NumObstacleStates(), height, width]
    }

    function NumStates(): nat
    {
      width * height * NumObstacleStates()
    }
  }

  /** `keepInGrid`: clamps a y value into the rows of the grid. */
  function KeepInGrid(height: int, y: int): (r: int)
    requires height > 0
    ensures 0 <= r < height
    ensures 0 <= y < height ==> r == y
    ensures y < 0 ==> r == 0
    ensures y >= height ==> r == height - 1
  {
    if y < 0 then 0 else if y >= height then height - 1 else y
  }

  /** Clamping an in-grid value again changes nothing, and clamping keeps order. */
  lemma KeepInGridIdempotentMonotone(height: int, y: int, z: int)
    requires height > 0
    ensures KeepInGrid(height, KeepInGrid(height, y)) == KeepInGrid(height, y)
    ensures y <= z ==> KeepInGrid(height, y) <= KeepInGrid(height, z)
  {
  }

  // ---------------------------------------------------------------------
  // Obstacle dynamics
  // ---------------------------------------------------------------------

  /** The random outcome drawn for one obstacle in one step. */
  datatype Draw = Up | Down | Put

  function DrawProb(d: Draw): real
  {
    match d
    case Up => BLOCK_MOVE_PROB / 2.0
    case Down => BLOCK_MOVE_PROB / 2.0
    case Put => 1.0 - BLOCK_MOVE_PROB
  }

  function DrawOffset(d: Draw): int
  {
    match d
    case Up => 1
    case Down => -1
    case Put => 0
  }

  /**
   * `moveObstacle`, with the random draw as a parameter. A move that would
   * leave the grid is clamped back, so the obstacle then stays put: this is
   * the reflection at the top and bottom rows.
   */
  function MoveObstacle(height: int, y: int, d: Draw): (r: int)
    requires height > 0
    ensures 0 <= r < height
    ensures 0 <= y < height ==>
      r == (if 0 <= y + DrawOffset(d) < height then y + DrawOffset(d) else y)
  {
    KeepInGrid(height, y + DrawOffset(d))
  }

  /** Probability that an obstacle at row `y` is at row `newY` after one step. */
  function ObstacleProb(height: int, y: int, newY: int): (p: real)
    requires height > 0
    ensures 0.0 <= p <= 1.0
    ensures p != 0.0 ==> 0 <= newY < height
  {
    (if MoveObstacle(height, y, Up) == newY then DrawProb(Up) else 0.0)
    + (if MoveObstacle(height, y, Down) == newY then DrawProb(Down) else 0.0)
    + (if MoveObstacle(height, y, Put) == newY then DrawProb(Put) else 0.0)
  }

  /** The obstacle law from row `y` as a vector over the rows of the grid. */
  function ObstacleLaw(height: int, y: int): (law: seq<real>)
    requires height > 0
    ensures |law| == height
  {
    seq(height, newY => ObstacleProb(height, y, newY))
  }

  /**
   * The obstacle law by position: 0.25 up, 0.25 down and 0.5 stay from an
   * interior row; up impossible and stay 0.75 at the top row; down impossible
   * and stay 0.75 at the bottom row; a single-row grid keeps it in place.
   */
  lemma ObstacleLawValues(height: int, y: int)
    requires height > 0 && 0 <= y < height
    ensures 0 < y < height - 1 ==>
      ObstacleProb(height, y, y + 1) == 0.25 && ObstacleProb(height, y, y - 1) == 0.25
      && ObstacleProb(height, y, y) == 0.5
    ensures height > 1 && y == height - 1 ==>
      ObstacleProb(height, y, y + 1) == 0.0 && ObstacleProb(height, y, y - 1) == 0.25
      && ObstacleProb(height, y, y) == 0.75
    ensures height > 1 && y == 0 ==>
      ObstacleProb(height, y, y + 1) == 0.25 && ObstacleProb(height, y, y - 1) == 0.0
      && ObstacleProb(height, y, y) == 0.75
    ensures height == 1 ==> ObstacleProb(height, y, y) == 1.0
  {
  }

  /** The obstacle never leaves the grid and never moves more than one row. */
  lemma ObstacleProbSupport(height: int, y: int, newY: int)
    requires height > 0 && 0 <= y < height
    ensures ObstacleProb(height, y, newY) >= 0.0
    ensures ObstacleProb(height, y, newY) != 0.0 ==> 0 <= newY < height && -1 <= newY - y <= 1
  {
  }

  /** The obstacle law is a probability distribution over the rows. */
  lemma ObstacleLawSumsToOne(height: int, y: int)
    requires height > 0
    ensures NonNegative(ObstacleLaw(height, y))
    ensures Sum(ObstacleLaw(height, y)) == 1.0
  {
    var up := PointMass(height, MoveObstacle(height, y, Up), DrawProb(Up));
    var down := PointMass(height, MoveObstacle(height, y, Down), DrawProb(Down));
    var put := PointMass(height, MoveObstacle(height, y, Put), DrawProb(Put));
    assert ObstacleLaw(height, y) == Add(Add(up, down), put);
    SumAdd(Add(up, down), put);
    SumAdd(up, down);
    PointMassSum(height, MoveObstacle(height, y, Up), DrawProb(Up));
    PointMassSum(height, MoveObstacle(height, y, Down), DrawProb(Down));
    PointMassSum(height, MoveObstacle(height, y, Put), DrawProb(Put));
  }

  /** Every obstacle moved by its own draw. */
  function MoveObstacles(height: int, obstacles: seq<int>, draws: seq<Draw>): (r: seq<int>)
    requires height > 0 && |draws| == |obstacles|
    ensures |r| == |obstacles|
    ensures forall k :: 0 <= k < |r| ==> 0 <= r[k] < height
    ensures forall k :: 0 <= k < |r| ==> r[k] == MoveObstacle(height, obstacles[k], draws[k])
  {
    seq(|obstacles|, k requires 0 <= k < |obstacles| => MoveObstacle(height, obstacles[k], draws[k]))
  }

  // ---------------------------------------------------------------------
  // States, the agent's dynamics, reward and termination
  // ---------------------------------------------------------------------

  datatype CollisionAvoidanceState =
    CollisionAvoidanceState(xAgent: int, yAgent: int, obstacles: seq<int>, index: int)

  /** The errors the state object signals. */
  datatype StateError = IndexIsComputed

  /**
   * The index setter of a state: the index of a domain state is fixed by the
   * pool, so calling the setter is a misuse and always fails.
   */
  function SetIndex(s: CollisionAvoidanceState, i: int): (r: Result<CollisionAvoidanceState, StateError>)
    ensures r == Failure(IndexIsComputed)
  {
    Failure(IndexIsComputed)
  }

  /** `assertLegal`: the agent and every obstacle are inside the grid. */
  predicate Legal(g: Grid, s: CollisionAvoidanceState)
  {
    && 0 <= s.xAgent < g.width
    && 0 <= s.yAgent < g.height
    && InSpace(g.ObstacleSpace(), s.obstacles)
  }

  /** Index of an obstacle vector in the obstacle space (mixed radix, all radices = height). */
  function ObstacleIndex(g: Grid, obstacles: seq<int>): (o: int)
    requires |obstacles| == g.numObstacles
    ensures InSpace(g.ObstacleSpace(), obstacles) ==> 0 <= o < g.NumObstacleStates()
  {
    if InSpace(g.ObstacleSpace(), obstacles) then
      EncodeInRange(g.ObstacleSpace(), obstacles);
      ProductRepeat(g.height, g.numObstacles);
      Encode(g.ObstacleSpace(), obstacles)
    else
      Encode(g.ObstacleSpace(), obstacles)
  }

  /** Index of the state <x, y, obstacle index o>: o + K * (y + height * x), K = height^numObstacles. */
  function StateIndex(g: Grid, x: int, y: int, o: int): (i: int)
    ensures g.Valid() && 0 <= x < g.width && 0 <= y < g.height && 0 <= o < g.NumObstacleStates() ==>
      0 <= i < g.NumStates()
  {
    if g.Valid() && 0 <= x < g.width && 0 <= y < g.height && 0 <= o < g.NumObstacleStates() then
      SpaceSizes(g);
      assert InSpace(g.StateRadices(), [o, y, x]);
      EncodeInRange(g.StateRadices(), [o, y, x]);
      Encode(g.StateRadices(), [o, y, x])
    else
      Encode(g.StateRadices(), [o, y, x])
  }

  /** Within one agent position the obstacle index is the least significant part of the state index. */
  lemma StateIndexShift(g: Grid, x: int, y: int, o: int)
    ensures StateIndex(g, x, y, o) == o + StateIndex(g, x, y, 0)
  {
    var r := g.StateRadices();
    assert r[1..] == [g.height, g.width] && r[1..][1..] == [g.width] && r[1..][1..][1..] == [];
    var v := [o, y, x];
    assert v[1..] == [y, x] && v[1..][1..] == [x] && v[1..][1..][1..] == [];
    assert StateIndex(g, x, y, o) == o + r[0] * Encode(r[1..], [y, x]);
    assert StateIndex(g, x, y, 0) == 0 + r[0] * Encode(r[1..], [y, x]);
  }

  /** The index a legal state should carry. */
  function IndexOf(g: Grid, s: CollisionAvoidanceState): int
    requires |s.obstacles| == g.numObstacles
  {
    StateIndex(g, s.xAgent, s.yAgent, ObstacleIndex(g, s.obstacles))
  }

  /** A legal state that carries its own index, as every pooled state does. */
  predicate Indexed(g: Grid, s: CollisionAvoidanceState)
  {
    Legal(g, s) && s.index == IndexOf(g, s)
  }

  /** The state the pool holds at position [x][y][o]. */
  function PooledState(g: Grid, x: int, y: int, o: int): CollisionAvoidanceState
    requires g.Valid()
  {
    CollisionAvoidanceState(x, y, Decode(g.ObstacleSpace(), o), StateIndex(g, x, y, o))
  }

  lemma SpaceSizes(g: Grid)
    requires g.Valid()
    ensures Positive(g.ObstacleSpace()) && Positive(g.StateRadices())
    ensures Product(g.ObstacleSpace()) == g.NumObstacleStates()
    ensures Product(g.StateRadices()) == g.NumStates()
  {
    ProductRepeat(g.height, g.numObstacles);
    PowPositive(g.height, g.numObstacles);
    var k, h, w := g.NumObstacleStates(), g.height, g.width;
    var r := g.StateRadices();
    assert r[1..] == [h, w] && r[1..][1..] == [w] && r[1..][1..][1..] == [];
    assert Product(r[1..][1..][1..]) == 1;
    assert Product(r[1..][1..]) == w;
    assert Product(r[1..]) == h * w;
    assert Product(r) == k * (h * w);
    MulRegroup(k, h, w);
  }

  /**
   * The obstacle index is a bijection between obstacle vectors in the grid
   * and [0, height^numObstacles).
   */
  lemma ObstacleIndexBijection(g: Grid, obstacles: seq<int>, o: int)
    requires g.Valid()
    ensures InSpace(g.ObstacleSpace(), obstacles) ==>
      0 <= ObstacleIndex(g, obstacles) < g.NumObstacleStates()
      && Decode(g.ObstacleSpace(), ObstacleIndex(g, obstacles)) == obstacles
    ensures 0 <= o < g.NumObstacleStates() ==>
      InSpace(g.ObstacleSpace(), Decode(g.ObstacleSpace(), o))
      && ObstacleIndex(g, Decode(g.ObstacleSpace(), o)) == o
  {
    SpaceSizes(g);
    if InSpace(g.ObstacleSpace(), obstacles) {
      EncodeInRange(g.ObstacleSpace(), obstacles);
      DecodeEncode(g.ObstacleSpace(), obstacles);
    }
    if 0 <= o < g.NumObstacleStates() {
      EncodeDecode(g.ObstacleSpace(), o);
    }
  }

  /**
   * The state index is a bijection between legal states and
   * [0, width * height * height^numObstacles): it lands in range, and the
   * position it encodes can be read back.
   */
  lemma StateIndexBijection(g: Grid, x: int, y: int, o: int, i: int)
    requires g.Valid()
    ensures 0 <= x < g.width && 0 <= y < g.height && 0 <= o < g.NumObstacleStates() ==>
      0 <= StateIndex(g, x, y, o) < g.NumStates()
      && Decode(g.StateRadices(), StateIndex(g, x, y, o)) == [o, y, x]
    ensures 0 <= i < g.NumStates() ==>
      var v := Decode(g.StateRadices(), i);
      && 0 <= v[0] < g.NumObstacleStates() && 0 <= v[1] < g.height && 0 <= v[2] < g.width
      && StateIndex(g, v[2], v[1], v[0]) == i
  {
    SpaceSizes(g);
    if 0 <= x < g.width && 0 <= y < g.height && 0 <= o < g.NumObstacleStates() {
      assert InSpace(g.StateRadices(), [o, y, x]);
      EncodeInRange(g.StateRadices(), [o, y, x]);
      DecodeEncode(g.StateRadices(), [o, y, x]);
    }
    if 0 <= i < g.NumStates() {
      EncodeDecode(g.StateRadices(), i);
      var v := Decode(g.StateRadices(), i);
      assert v == [v[0], v[1], v[2]];
    }
  }

  /** Two legal states with the same index are the same position. */
  lemma IndexOfInjective(g: Grid, s: CollisionAvoidanceState, t: CollisionAvoidanceState)
    requires g.Valid() && Legal(g, s) && Legal(g, t) && IndexOf(g, s) == IndexOf(g, t)
    ensures s.xAgent == t.xAgent && s.yAgent == t.yAgent && s.obstacles == t.obstacles
  {
    var os, ot := ObstacleIndex(g, s.obstacles), ObstacleIndex(g, t.obstacles);
    ObstacleIndexBijection(g, s.obstacles, 0);
    ObstacleIndexBijection(g, t.obstacles, 0);
    StateIndexBijection(g, s.xAgent, s.yAgent, os, 0);
    StateIndexBijection(g, t.xAgent, t.yAgent, ot, 0);
  }

  /** The agent moves one column left whatever it does. */
  function NextX(x: int): (r: int)
    ensures x > 0 ==> 0 <= r < x
  {
    x - 1
  }

  /** The agent's next row: the requested displacement, clamped into the grid. */
  function NextY(height: int, y: int, m: Move): (r: int)
    requires height > 0
    ensures 0 <= r < height
  {
    KeepInGrid(height, y + Delta(m))
  }

  /**
   * The agent's rule by action: every action takes it one column left;
   * MOVE_DOWN, STAY and MOVE_UP ask for row displacements -1, 0 and +1 (the
   * action index minus one), and a request that would leave the grid leaves
   * the agent on its row.
   */
  lemma AgentMoveRule(height: int, x: int, y: int, m: Move)
    requires height > 0 && 0 <= y < height
    ensures NextX(x) == x - 1
    ensures Delta(m) == ActionIndex(m) - 1
    ensures NextY(height, y, m) == if 0 <= y + Delta(m) < height then y + Delta(m) else y
    ensures m == Stay ==> NextY(height, y, m) == y
  {
  }

  /** The agent shares a cell with an obstacle: it is in the left-most column on an obstacle's row. */
  predicate Collides(s: CollisionAvoidanceState)
  {
    s.xAgent == 0 && s.yAgent in s.obstacles
  }

  /** `reward(a, new_s)`: minus the move cost, minus COLLIDE_PENALTY on a collision. */
  function Reward(a: Move, next: CollisionAvoidanceState): (r: real)
    ensures r <= 0.0
    ensures r <= -COLLIDE_PENALTY <==> Collides(next)
    ensures a != Stay ==> r <= -MOVE_PENALTY
  {
    -MoveCost(a) - (if Collides(next) then COLLIDE_PENALTY else 0.0)
  }

  /**
   * The reward is one of 0, -1, -1000, -1001: a diagonal move costs 1 and
   * moving straight left is free; a collision adds -1000.
   */
  lemma RewardValues(a: Move, next: CollisionAvoidanceState)
    ensures var r := Reward(a, next);
      r == 0.0 || r == -1.0 || r == -1000.0 || r == -1001.0
    ensures Reward(a, next) <= -COLLIDE_PENALTY <==> Collides(next)
    ensures !Collides(next) ==> Reward(a, next) >= -MOVE_PENALTY
    ensures !Collides(next) && a == Stay ==> Reward(a, next) == 0.0
    ensures !Collides(next) && a != Stay ==> Reward(a, next) == -1.0
    ensures Collides(next) && a == Stay ==> Reward(a, next) == -1000.0
    ensures Collides(next) && a != Stay ==> Reward(a, next) == -1001.0
    ensures Collides(next) <==> (exists k :: 0 <= k < |next.obstacles| && next.obstacles[k] == next.yAgent) && next.xAgent == 0
  {
    if Collides(next) {
      var k :| 0 <= k < |next.obstacles| && next.obstacles[k] == next.yAgent;
    }
  }

  /** The episode ends when the agent reaches the left-most column. */
  predicate IsTerminal(next: CollisionAvoidanceState)
    ensures !IsTerminal(next) ==> !Collides(next)
  {
    next.xAgent == 0
  }

  // ---------------------------------------------------------------------
  // The domain object and its pool of states
  // ---------------------------------------------------------------------

  /**
   * The domain holds every state, built once at construction, in a pool
   * indexed [x][y][obstacle index]; lookups and steps return pooled states.
   */
  class CollisionAvoidance {
    const gridWidth: nat
    const gridHeight: nat
    const numObstacles: nat
    const states: array3<CollisionAvoidanceState>

    function Dims(): Grid
    {
      Grid(gridWidth, gridHeight, numObstacles)
    }

    ghost predicate Valid()
      reads this, states
    {
      && Dims().Valid()
      && states.Length0 == gridWidth
      && states.Length1 == gridHeight
      && states.Length2 == Dims().NumObstacleStates()
      && forall x, y, o :: 0 <= x < gridWidth && 0 <= y < gridHeight && 0 <= o < states.Length2 ==>
           states[x, y, o] == PooledState(Dims(), x, y, o)
    }

    constructor (width: nat, height: nat, obstacleCount: nat)
      requires width > 0 && height > 0 && obstacleCount > 0
      ensures gridWidth == width && gridHeight == height && numObstacles == obstacleCount
      ensures Valid() && fresh(states)
    {
      var g := Grid(width, height, obstacleCount);
      var k := Pow(height, obstacleCount);
      var pool := new CollisionAvoidanceState[width, height, k];
      var x := 0;
      while x < width
        invariant 0 <= x <= width
        invariant forall i, j, o :: 0 <= i < x && 0 <= j < height && 0 <= o < k ==>
          pool[i, j, o] == PooledState(g, i, j, o)
      {
        var y := 0;
        while y < height
          invariant 0 <= y <= height
          invariant forall i, j, o :: 0 <= i < x && 0 <= j < height && 0 <= o < k ==>
            pool[i, j, o] == PooledState(g, i, j, o)
          invariant forall j, o :: 0 <= j < y && 0 <= o < k ==> pool[x, j, o] == PooledState(g, x, j, o)
        {
          var o := 0;
          while o < k
            invariant 0 <= o <= k
            invariant forall i, j, o' :: 0 <= i < x && 0 <= j < height && 0 <= o' < k ==>
              pool[i, j, o'] == PooledState(g, i, j, o')
            invariant forall j, o' :: 0 <= j < y && 0 <= o' < k ==> pool[x, j, o'] == PooledState(g, x, j, o')
            invariant forall o' :: 0 <= o' < o ==> pool[x, y, o'] == PooledState(g, x, y, o')
          {
            pool[x, y, o] := PooledState(g, x, y, o);
            o := o + 1;
          }
          y := y + 1;
        }
        x := x + 1;
      }
      gridWidth, gridHeight, numObstacles := width, height, obstacleCount;
      states := pool;
    }

    /** `getState(x, y, obstacles)`: the pooled state at that position. */
    method GetState(x: int, y: int, obstacles: seq<int>) returns (s: CollisionAvoidanceState)
      requires Valid()
      requires 0 <= x < gridWidth && 0 <= y < gridHeight && InSpace(Dims().ObstacleSpace(), obstacles)
      ensures s.xAgent == x && s.yAgent == y && s.obstacles == obstacles
      ensures Indexed(Dims(), s) && 0 <= s.index < Dims().NumStates()
    {
      var o := ObstacleIndex(Dims(), obstacles);
      ObstacleIndexBijection(Dims(), obstacles, 0);
      StateIndexBijection(Dims(), x, y, o, 0);
      s := states[x, y, o];
    }

    /** `getState(index)`: the pooled state whose index is `index`. */
    method GetStateByIndex(index: int) returns (s: CollisionAvoidanceState)
      requires Valid() && 0 <= index < Dims().NumStates()
      ensures Indexed(Dims(), s) && s.index == index
    {
      var v := Decode(Dims().StateRadices(), index);
      StateIndexBijection(Dims(), 0, 0, 0, index);
      ObstacleIndexBijection(Dims(), [], v[0]);
      s := states[v[2], v[1], v[0]];
    }

    /**
     * `step`: the agent moves left and to its next row, every obstacle moves
     * by its draw, and the result is the pooled successor, its reward and
     * whether it is terminal. The draws stand for the random source.
     */
    method Step(s: CollisionAvoidanceState, a: Move, draws: seq<Draw>)
      returns (next: CollisionAvoidanceState, reward: real, terminal: bool)
      requires Valid() && Indexed(Dims(), s) && s.xAgent > 0 && |draws| == numObstacles
      ensures next.xAgent == NextX(s.xAgent) == s.xAgent - 1
      ensures next.yAgent == NextY(gridHeight, s.yAgent, a)
      ensures next.obstacles == MoveObstacles(gridHeight, s.obstacles, draws)
      ensures |next.obstacles| == |s.obstacles|
      ensures forall k :: 0 <= k < |s.obstacles| ==>
        next.obstacles[k] == MoveObstacle(gridHeight, s.obstacles[k], draws[k])
      ensures Indexed(Dims(), next)
      ensures reward == Reward(a, next)
      ensures terminal <==> next.xAgent == 0
    {
      var obstacles := MoveObstacles(gridHeight, s.obstacles, draws);
      next := GetState(NextX(s.xAgent), NextY(gridHeight, s.yAgent, a), obstacles);
      reward := Reward(a, next);
      terminal := IsTerminal(next);
    }
  }

  /**
   * A 3 x 3 grid with one obstacle, agent at (2, 1) and obstacle at row 1:
   * STAY takes the agent to (1, 1) with reward 0 whatever the obstacle does.
   */
  lemma CentreScenarioFirstStep(d: Draw)
    ensures NextX(2) == 1 && NextY(3, 1, Stay) == 1
    ensures Reward(Stay, CollisionAvoidanceState(1, 1, MoveObstacles(3, [1], [d]), 0)) == 0.0
  {
  }

  /** In that scenario the obstacle goes to rows 0, 1, 2 with probabilities 0.25, 0.5, 0.25. */
  lemma CentreScenarioObstacleLaw()
    ensures ObstacleLaw(3, 1) == [0.25, 0.5, 0.25]
  {
    var law := ObstacleLaw(3, 1);
    assert law[0] == 0.25 && law[1] == 0.5 && law[2] == 0.25;
  }

  /**
   * From (1, 1), STAY reaches the terminal column, and the reward is then
   * -1000 exactly when the obstacle is on row 1.
   */
  lemma CentreScenarioLastStep(o: int)
    requires 0 <= o < 3
    ensures IsTerminal(CollisionAvoidanceState(NextX(1), NextY(3, 1, Stay), [o], 0))
    ensures Reward(Stay, CollisionAvoidanceState(NextX(1), NextY(3, 1, Stay), [o], 0))
      == if o == 1 then -1000.0 else 0.0
  {
    assert Collides(CollisionAvoidanceState(0, 1, [o], 0)) <==> o == 1;
  }
}
