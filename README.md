# Collision avoidance: the domain and its Bayes-adaptive priors

This project models the collision-avoidance domain of a Bayes-adaptive POMDP
planning library, and the two priors over its obstacle dynamics.

An agent crosses a `width x height` grid from the right-most column to the
left-most one. It moves one column left per step and chooses to go
lower-left, left or upper-left. Obstacles in the left-most column move up,
down or stay put at random, and reflect at the top and bottom rows. A
diagonal move costs 1 and a collision costs 1000. The episode ends in the
left-most column.

The domain pools every state under a dense index built from
`x`, `y` and the mixed-radix index of the obstacle vector.

The priors believe the observation model and the agent's own motion. They
are uncertain only about how the obstacles move, and a `noise` level shifts
probability from moving to staying.

- The *table prior* turns the blended law into pseudo-counts over
  (state, action, next state).
- The *factored prior* lays a state out as the features
  `<x, y, obstacle 0, ..., obstacle n-1>`. It gives each feature a network
  node with a conditional count table.

Files, one module each:

- `outcomes.dfy`: `Option` and `Result`.
- `probability.dfy`: finite distributions and count vectors over `real`. It
  has sums, point masses, scaling, embedding, and products of independent
  factors.
- `discrete_space.dfy`: mixed-radix encoding and decoding of feature tuples.
- `decimal.dfy`: the decimal text of integers, as `std::to_string(int)`
  writes it, and a reader for it.
- `collision_avoidance.dfy`: the domain. This covers actions, constants,
  `keepInGrid`, the obstacle law, the state index, the agent's moves, the
  reward, termination, and the state pool with `getState` and `step`.
- `state_text.dfy`: `toString` of a state, and a reader that proves the text
  determines the state.
- `collision_avoidance_priors.dfy`: `obstacleTransProb`, the joint law of
  all obstacles, and the table prior's `setTransitionCounts`.
- `factored_prior.dfy`: the factored feature layout, `obstacleTransition`,
  the network node, and `setAgentYTransition`.

Modelling decisions. The header files of the system give the declarations,
constants, doc comments and data layouts; the function bodies are not part
of this model. Each decision below comes from those headers, or is an
assumption and is named as such:

- The obstacle law is the push-forward of three draws through
  `keepInGrid(y + d)`: up 0.25, down 0.25, put 0.5. A move off the grid is
  clamped back onto the current row. This gives exactly the numbers the
  domain's doc comment states: 0 / 0.25 / 0.75 at the top row, and
  0.25 / 0 / 0.75 at the bottom row.
- The doc comment of the priors states the noise law loosely, for noise
  0.1 only: the move probability is "decreased by .5" and staying gains
  "10%". The words allow an additive reading: each move loses
  `0.5 * noise` and staying gains `noise`. At an interior row this gives
  0.2 / 0.2 / 0.6 at noise 0.1. The model does not follow that reading,
  because it goes negative at an edge row: there the blocked direction has
  probability 0, and subtracting `0.5 * noise` from it leaves -0.05. The
  model fixes a formula that is a distribution at every row, and gives
  0.225 / 0.225 / 0.55 at an interior row at noise 0.1:
  - `p'(up) = (1 - noise) p(up)`;
  - `p'(down) = (1 - noise) p(down)`;
  - `p'(stay) = 1 - p'(up) - p'(down)`.

  A lemma proves this is the mixture `(1 - noise) * true law + noise * stay`.
  This is an assumption.
- Mixed-radix indices put the first value in the least significant place:
  `v0 + c0 * (v1 + c1 * ...)`. The state index is
  `o + K * (y + height * x)` with `K = height^numObstacles`, matching the pool
  layout `_states[x][y][o]`. This layout is an assumption.
- The first obstacle is the least significant digit of the obstacle index.
- Probabilities and counts are exact `real`s; the system uses `float` and
  `double`.
- Random draws and the network node's table keys:
  - The random draws of `step` are a parameter.
  - The parent values of the agent-y node are keyed as the sequence
    `[y, action index]`.
- The deterministic agent-y counts put the prior's total mass `countsTotal`
  on the true next row. The magnitude is an assumption.

## Model

| member | source | states |
|---|---|---|
| `Domains.ActionIndex` | src/domains/collision-avoidance/CollisionAvoidance.hpp:87-89 | every action has an index below NUM_ACTIONS = 3 |
| `Domains.ActionIndexRoundTrip` | src/domains/collision-avoidance/CollisionAvoidance.hpp:87-89 | the enumeration MOVE_DOWN, STAY, MOVE_UP and the action indices 0, 1, 2 are in one-to-one correspondence |
| `Domains.KeepInGrid` | src/domains/collision-avoidance/CollisionAvoidance.hpp:191-197 | the result lies in [0, height), is y itself for an in-grid y, 0 for a negative y and height - 1 for y >= height |
| `Domains.KeepInGridIdempotentMonotone` | src/domains/collision-avoidance/CollisionAvoidance.hpp:191-197 | clamping twice is clamping once, and clamping preserves order |
| `Domains.MoveObstacle` | src/domains/collision-avoidance/CollisionAvoidance.hpp:199-204 | a moved obstacle never leaves the grid; from a row in the grid it moves by the draw's offset (+1 up, -1 down, 0 stay) when that stays in the grid, and otherwise keeps its row |
| `Domains.ObstacleProb` | src/domains/collision-avoidance/CollisionAvoidance.hpp:70-74 | the probability that an obstacle at row y is at row newY after one step, from the draws up 0.25, down 0.25 and stay 0.5 clamped to the grid; it is in [0, 1] and only rows inside the grid get positive probability |
| `Domains.ObstacleLaw` | src/domains/collision-avoidance/CollisionAvoidance.hpp:199-204 | the obstacle law has one entry per row |
| `Domains.ObstacleLawValues` | src/domains/collision-avoidance/CollisionAvoidance.hpp:70-74 | up/down/stay are 0.25/0.25/0.5 from an interior row, 0/0.25/0.75 at the top row, 0.25/0/0.75 at the bottom row, and stay is 1 on a one-row grid |
| `Domains.ObstacleProbSupport` | src/domains/collision-avoidance/CollisionAvoidance.hpp:70-74 | every probability is non-negative, and a row with positive probability is inside the grid and at most one row away |
| `Domains.ObstacleLawSumsToOne` | src/domains/collision-avoidance/CollisionAvoidance.hpp:89-92 | the obstacle law is non-negative and sums to 1, for every row |
| `Domains.MoveObstacles` | src/domains/collision-avoidance/CollisionAvoidance.hpp:199-204 | the result has one entry per obstacle, each in the grid, and entry k is obstacle k moved by draw k |
| `Domains.SetIndex` | src/domains/collision-avoidance/CollisionAvoidance.hpp:42-45 | setting the index of a state always fails |
| `Domains.SpaceSizes` | src/domains/collision-avoidance/CollisionAvoidance.hpp:141-151 | the obstacle space has height^numObstacles tuples, and the state space has width * height * height^numObstacles |
| `Domains.ObstacleIndex` | src/domains/collision-avoidance/CollisionAvoidance.hpp:141-145 | the obstacle rows as one mixed-radix number, the first obstacle least significant; an in-grid vector gets an index in [0, height^numObstacles) |
| `Domains.StateIndex` | src/domains/collision-avoidance/CollisionAvoidance.hpp:147-151 | the state index of an agent position and an obstacle index, the obstacle index least significant, then y, then x; a legal position gets an index in [0, width * height * height^numObstacles) |
| `Domains.ObstacleIndexBijection` | src/domains/collision-avoidance/CollisionAvoidance.hpp:141-145 | the index of an in-grid obstacle vector lies in [0, height^numObstacles) and decodes back to the vector; every index in that range decodes to a vector with that index |
| `Domains.StateIndexShift` | src/domains/collision-avoidance/CollisionAvoidance.hpp:147-151 | for a fixed agent position, the obstacle index is the least significant part of the state index |
| `Domains.StateIndexBijection` | src/domains/collision-avoidance/CollisionAvoidance.hpp:147-151 | the state index maps legal positions into [0, width * height * height^numObstacles), which matches the size of the state prior, and every index in that range decodes to a legal position with that index |
| `Domains.IndexOfInjective` | src/domains/collision-avoidance/CollisionAvoidance.hpp:147-151 | two legal states with the same index have the same position and obstacles |
| `Domains.NextX` | src/domains/collision-avoidance/CollisionAvoidance.hpp:75-76 | from a column x > 0 the agent reaches a column in [0, x); the exact x - 1 is stated by `Domains.AgentMoveRule` and `Domains.CollisionAvoidance.Step` |
| `Domains.NextY` | src/domains/collision-avoidance/CollisionAvoidance.hpp:75-76 | the agent's next row is inside the grid |
| `Domains.AgentMoveRule` | src/domains/collision-avoidance/CollisionAvoidance.hpp:75-76 | every action takes the agent from column x to x - 1; MOVE_DOWN, STAY and MOVE_UP ask for -1, 0 and +1 (action index minus one); a request leaving the grid keeps the row; STAY keeps it |
| `Domains.Reward` | src/domains/collision-avoidance/CollisionAvoidance.hpp:181-189 | the reward is never positive; it is at most -1000 exactly when the successor collides; a diagonal move (MOVE_DOWN, MOVE_UP) gives at most -1 |
| `Domains.IsTerminal` | src/domains/collision-avoidance/CollisionAvoidance.hpp:77-78 | a step is terminal when the agent reaches column 0; a collision happens only in a terminal state |
| `Domains.RewardValues` | src/domains/collision-avoidance/CollisionAvoidance.hpp:181-189 | the reward is one of 0, -1, -1000, -1001; it is at most -1000 exactly in the left-most column on an obstacle's row; STAY gives 0 and a diagonal move -1 without a collision, and -1000 and -1001 with one |
| `Domains.CollisionAvoidance.constructor` | src/domains/collision-avoidance/CollisionAvoidance.hpp:94-98 | the pool is filled so that the state at [x][y][o] has that position, the obstacles decoded from o, and its state index |
| `Domains.CollisionAvoidance.GetState` | src/domains/collision-avoidance/CollisionAvoidance.hpp:112 | the pooled state for a legal position has that position and carries its own index, which is in range |
| `Domains.CollisionAvoidance.GetStateByIndex` | src/domains/collision-avoidance/CollisionAvoidance.hpp:172-179 | the pooled state for an index in range carries that index and is legal |
| `Domains.CollisionAvoidance.Step` | src/domains/collision-avoidance/CollisionAvoidance.hpp:128 | the successor's x is the current x - 1, its row is the clamped next row, and its obstacle k is obstacle k moved by draw k, with the obstacle count kept; it is a pooled, indexed state; the reward is that of the successor; the step is terminal iff the successor's x is 0 |
| `Domains.CentreScenarioFirstStep` | src/domains/collision-avoidance/CollisionAvoidance.hpp:66-79 | on a 3 x 3 grid, STAY from (2, 1) reaches (1, 1) with reward 0, whatever the obstacle draws |
| `Domains.CentreScenarioObstacleLaw` | src/domains/collision-avoidance/CollisionAvoidance.hpp:70-74 | on three rows an obstacle at row 1 goes to rows 0, 1, 2 with 0.25, 0.5, 0.25 |
| `Domains.CentreScenarioLastStep` | src/domains/collision-avoidance/CollisionAvoidance.hpp:75-78 | STAY from (1, 1) is terminal, with reward -1000 exactly when the obstacle is on row 1 |
| `DiscreteSpace.EncodeInRange` | src/domains/collision-avoidance/CollisionAvoidance.hpp:141-145 | every tuple of the space has an index in [0, product of the cardinalities) |
| `DiscreteSpace.DecodeEncode` | src/domains/collision-avoidance/CollisionAvoidance.hpp:141-145 | decoding the index of a tuple gives back the tuple |
| `DiscreteSpace.EncodeDecode` | src/domains/collision-avoidance/CollisionAvoidance.hpp:141-145 | every index in range decodes to a tuple of the space whose index it is |
| `DiscreteSpace.EncodeInjective` | src/domains/collision-avoidance/CollisionAvoidance.hpp:141-145 | distinct tuples have distinct indices |
| `Decimal.ParseIntToString` | src/domains/collision-avoidance/CollisionAvoidance.hpp:56-57 | the decimal text of every integer reads back as that integer |
| `Decimal.IntToStringChars` | src/domains/collision-avoidance/CollisionAvoidance.hpp:56-57 | the decimal text of an integer holds only digits and '-' |
| `StateText.Show` | src/domains/collision-avoidance/CollisionAvoidance.hpp:49-59 | the text of a state: "(index:", the index, the position in parentheses and the braced comma-separated obstacles, closed by "})"; it starts with "(index:" and ends with "})" |
| `StateText.ToString` | src/domains/collision-avoidance/CollisionAvoidance.hpp:49-59 | the loop builds "(index:i (x,y), {o0,...,on-1})" with comma-separated obstacles, for a non-empty obstacle list |
| `StateText.ParseShow` | src/domains/collision-avoidance/CollisionAvoidance.hpp:49-59 | reading the text of a state gives back its index, position and obstacles |
| `StateText.ParseListCommaSeparated` | src/domains/collision-avoidance/CollisionAvoidance.hpp:51-54 | the comma-separated obstacle list reads back as the obstacle vector |
| `Priors.TrueLawThreeRows` | src/domains/collision-avoidance/CollisionAvoidance.hpp:70-74 | the true law puts all its mass on the rows y - 1, y and y + 1, each in [0, 1] |
| `Priors.ObstacleTransProbMixture` | src/domains/collision-avoidance/CollisionAvoidancePriors.hpp:34-40 | the blended probability is (1 - noise) times the true one, plus noise for staying put |
| `Priors.NoiseFreeIsTrueLaw` | src/domains/collision-avoidance/CollisionAvoidancePriors.hpp:34-38 | with noise 0 the prior's law is the domain's true obstacle law |
| `Priors.ObstacleTransProb` | src/domains/collision-avoidance/CollisionAvoidancePriors.hpp:77 | the prior's obstacle law: up and down are the true probabilities times (1 - noise), stay takes the rest; any row that is not y - 1, y or y + 1 gets 0 |
| `Priors.ObstacleTransProbBounds` | src/domains/collision-avoidance/CollisionAvoidancePriors.hpp:77 | for noise in [0, 1] each blended probability is in [0, 1], and it is 0 outside the grid or more than one row away |
| `Priors.BlendedLaw` | src/domains/collision-avoidance/CollisionAvoidancePriors.hpp:77 | the blended law has one entry per row |
| `Priors.BlendedLawDistribution` | src/domains/collision-avoidance/CollisionAvoidancePriors.hpp:34-40 | for noise in [0, 1] the blended law is non-negative and sums to 1 |
| `Priors.NoiseMonotone` | src/domains/collision-avoidance/CollisionAvoidancePriors.hpp:39-40 | more noise never lowers stay and never raises up or down; with more than one row, stay strictly grows |
| `Priors.TenthNoiseValues` | src/domains/collision-avoidance/CollisionAvoidancePriors.hpp:39-40 | at noise 0.1: up 0.225, down 0.225, stay 0.55 from an interior row; the one open direction 0.225 and stay 0.775 at an edge row |
| `Priors.JointTransProb` | src/domains/collision-avoidance/CollisionAvoidancePriors.hpp:66-77 | the probability that every obstacle moves to its new row, the product of the obstacles' blended probabilities; for in-grid obstacles and noise in [0, 1] it is in [0, 1] |
| `Priors.JointTransProbSupport` | src/domains/collision-avoidance/CollisionAvoidancePriors.hpp:66-77 | a joint move in which some obstacle jumps more than one row has probability 0 |
| `Priors.JointLawDistribution` | src/domains/collision-avoidance/CollisionAvoidancePriors.hpp:66-77 | the joint law has height^n entries, is non-negative and sums to 1 |
| `Priors.JointTransProbIsProduct` | src/domains/collision-avoidance/CollisionAvoidancePriors.hpp:66-77 | the joint probability is the product, over obstacles, of each obstacle's blended probability |
| `Priors.JointLawAt` | src/domains/collision-avoidance/CollisionAvoidancePriors.hpp:66-77 | the joint law's entry at the index of a vector of new rows is the joint probability of moving there |
| `Priors.TransitionKeySuccessor` | src/domains/collision-avoidance/CollisionAvoidancePriors.hpp:66-75 | every (state, action, next state) entry written links a state to the agent's deterministic successor under that action |
| `Priors.TransitionCountVector` | src/domains/collision-avoidance/CollisionAvoidancePriors.hpp:57-62 | the count vector of a (state, action) pair has one entry per state |
| `Priors.TransitionCountVectorMass` | src/domains/collision-avoidance/CollisionAvoidancePriors.hpp:56-62 | the counts of a (state, action) pair are non-negative and add up to the total pseudo-count mass |
| `Priors.TransitionCountVectorAt` | src/domains/collision-avoidance/CollisionAvoidancePriors.hpp:66-77 | the successor with obstacles at new rows gets total mass times the product of the obstacles' blended probabilities |
| `Priors.TransitionCountVectorSupport` | src/domains/collision-avoidance/CollisionAvoidancePriors.hpp:66-75 | a next state with non-zero counts is the agent's deterministic successor |
| `Priors.TablePrior.constructor` | src/domains/collision-avoidance/CollisionAvoidancePriors.hpp:45-62 | a new table prior holds its configuration and no counts |
| `Priors.TablePrior.SetTransitionCounts` | src/domains/collision-avoidance/CollisionAvoidancePriors.hpp:66-75 | sets the one successor entry to total mass times the joint blended probability; changes nothing else; all counts stay non-negative and on successors |
| `Priors.TablePrior.SetStateActionCounts` | src/domains/collision-avoidance/CollisionAvoidancePriors.hpp:62-75 | after one call per obstacle vector, the pair's successor block holds its count vector; every entry outside that block keeps its value, and no key outside the block is added |
| `FactoredPriors.FeatureLayout` | src/domains/collision-avoidance/CollisionAvoidancePriors.hpp:96-104 | x is feature 0 and y feature 1; obstacle k is feature 2 + k with range height; there are 2 + numObstacles features |
| `FactoredPriors.FeatureSpaceSize` | src/domains/collision-avoidance/CollisionAvoidancePriors.hpp:109-110 | the feature ranges span as many tuples as the flat state space |
| `FactoredPriors.FeaturesInSpace` | src/domains/collision-avoidance/CollisionAvoidancePriors.hpp:96-110 | a state's feature tuple is in range exactly when the state is legal |
| `FactoredPriors.FactoredPrior.ObstacleTransition` | src/domains/collision-avoidance/CollisionAvoidancePriors.hpp:134-141 | an obstacle node's count vector has one entry per row |
| `FactoredPriors.ObstacleTransitionCounts` | src/domains/collision-avoidance/CollisionAvoidancePriors.hpp:134-141 | each entry is the total counts times the blended probability of that row; entries are non-negative, zero more than one row away, and sum to the total counts |
| `FactoredPriors.FactoredPrior.AgentYCounts` | src/domains/collision-avoidance/CollisionAvoidancePriors.hpp:125-132 | the agent-y count vector has one entry per row |
| `FactoredPriors.AgentYCountsDeterministic` | src/domains/collision-avoidance/CollisionAvoidancePriors.hpp:125-132 | all mass sits on the domain's next row for the action, and no other row gets any |
| `FactoredPriors.DBNNode.constructor` | src/domains/collision-avoidance/CollisionAvoidancePriors.hpp:119-121 | a new node has its value range and an empty table; the cited lines are where the prior holds its nodes, since the node's own code is not part of this model and the node is abstract |
| `FactoredPriors.SetAgentYTransition` | src/domains/collision-avoidance/CollisionAvoidancePriors.hpp:125-132 | the node's entry for parent values (y, a) becomes the deterministic agent-y counts; other entries are kept; every count vector keeps positive mass |

## Left out

- Observations are left out, and with them `getObservation`, the lookup
  of a pooled observation by index. The Gaussian observation noise and
  `computeObservationProbability` use floating-point normal distributions
  from a library this model does not include.
- Priors.TablePrior.SetTransitionCounts: no positive floor is added to the
  counts, since the headers show none. The count is exactly the total mass
  times the joint blended probability, so an obstacle move of more than
  one row gets count 0.
- All random sampling is left out. This covers `sampleStartState`,
  `generateRandomAction`, the samplers, the Dirichlet draws of the
  `sample*State` members, `mutate`, `sampleBlockTModel` and the random
  structure choices. The draws of `step` are a parameter instead.
- `computePriorModel`, `sampleFullyConnectedState` and
  `sampleCorrectGraphState` are left out. They build whole factored models
  through `BABNModel`, whose code is not part of this model.
- `BAFlatModel`, `BABNModel`, `Domain_Size` and `Domain_Feature_Size` are
  not part of this model. The table prior's counts are a map from
  (state, action, next state). The network node is a map from parent values
  to count vectors.
- The internals of `DBNNode` are not part of this model, beyond a count
  table and its positive-mass invariant. The node's parent set and its key
  layout are not visible.
- Priors.TablePrior.constructor: it does not loop over every
  (state, action, obstacle) combination. `TablePrior.SetStateActionCounts`
  models the loop for one (state, action) pair.
- The agent-x node and the observation nodes of the factored prior are left
  out; their fill-in code is not visible.
- `copyState`, `releaseState`, `copyAction`, `releaseAction`,
  `copyObservation` and `releaseObservation` are left out. They manage
  memory, not behaviour.
- The getters (`type`, `xAgent`, `yAgent`, `yObstacles`, `getAction`) and
  `addLegalActions` are left out. They return fields or the whole action
  set.
- The `assertLegal` members are modelled as the `Legal` predicate in
  preconditions, not as run-time checks.
- The start-position variants (`VERSION`) are left out; they only affect
  sampling.
- Configuration parsing (`BAConf`, `FBAConf`) and the planner factory are
  left out.
- `Domains.CollisionAvoidance.Step` requires the agent to be right of the
  left-most column. A step from column 0 would leave the grid, and the
  system's handling of it is not visible.
- `Priors.TablePrior.SetTransitionCounts` has the same requirement,
  `x >= 1`.
- Numeric precision and integer overflow of the indices are left out:
  probabilities and counts are exact reals, and integers are unbounded.
