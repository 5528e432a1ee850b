/** The parts of the uncertainty-weighted Dyna-SAC agent that are not
    networks: the goal-distance reward of the gripper task, the synthetic
    batch a rollout stacks, row by row and layer by layer, the total
    variance of the sampled returns, the variance-to-weight step, and the
    critic's target and weighted loss. The actor, the critic, the world
    model, the reward model and the weighting are given as functions. */
module Dyna {
  import opened Reals
  import opened Transitions

  // ---------------------------------------------------------------------
  // Real arithmetic the proofs below use.

  /** Products of positive, and of non-negative, reals. */
  lemma ProductPositive(a: real, b: real)
    requires a > 0.0 && b > 0.0
    ensures a * b > 0.0
  {
  }

  lemma ProductNonNegative(a: real, b: real)
    requires a >= 0.0 && b >= 0.0
    ensures a * b >= 0.0
  {
  }

  /** `c * c - d * d` factors as `(c - d) * (c + d)`, so squaring is strictly monotone. */
  lemma StrictSquare(d: real, c: real)
    requires 0.0 <= d < c
    ensures d * d < c * c
  {
    ProductPositive(c - d, c + d);
    assert (c - d) * (c + d) == c * c - d * d;
  }

  lemma WeakSquare(d: real, c: real)
    requires 0.0 <= d <= c
    ensures d * d <= c * c
  {
    ProductNonNegative(c - d, c + d);
    assert (c - d) * (c + d) == c * c - d * d;
  }

  /** Squaring keeps the order of non-negative reals. */
  lemma SquareOrder(d: real, c: real)
    requires d >= 0.0 && c >= 0.0
    ensures d <= c <==> d * d <= c * c
    ensures d < c <==> d * d < c * c
  {
    if d < c {
      StrictSquare(d, c);
    } else if d > c {
      StrictSquare(c, d);
    } else {
      WeakSquare(d, c);
      WeakSquare(c, d);
    }
  }

  /** Inversion reverses the order of positive numbers. */
  lemma InverseAntitone(x: real, y: real)
    requires 0.0 < x <= y
    ensures 0.0 < 1.0 / y <= 1.0 / x
  {
    assert (1.0 / y) * y == 1.0 && (1.0 / x) * x == 1.0;
    assert (1.0 / x) * y >= (1.0 / x) * x;
  }

  lemma InverseStrict(x: real, y: real)
    requires 0.0 < x < y
    ensures 1.0 / y < 1.0 / x
  {
    InverseAntitone(x, y);
    assert (1.0 / y) * y == 1.0 && (1.0 / x) * x == 1.0;
  }

  /** `(a - lo) / (hi - lo)`: a mapped onto [0, 1] when it lies in [lo, hi]. */
  function Rescale(a: real, lo: real, hi: real): real
    requires hi > lo
  {
    (a - lo) / (hi - lo)
  }

  /** Rescaling keeps the order of the inputs and maps [lo, hi] onto [0, 1]. */
  lemma RescaleOrder(a: real, b: real, lo: real, hi: real)
    requires hi > lo && a <= b
    ensures Rescale(a, lo, hi) <= Rescale(b, lo, hi)
  {
    var d := hi - lo;
    assert (a - lo) / d * d == a - lo && (b - lo) / d * d == b - lo;
  }

  lemma RescaleBounds(a: real, lo: real, hi: real)
    requires hi > lo && lo <= a <= hi
    ensures 0.0 <= Rescale(a, lo, hi) <= 1.0
    ensures a == lo ==> Rescale(a, lo, hi) == 0.0
    ensures a == hi ==> Rescale(a, lo, hi) == 1.0
  {
    var d := hi - lo;
    assert (a - lo) / d * d == a - lo;
  }

  /** A non-zero multiple of n is at least n away from 0. */
  lemma MultipleBounds(d: int, n: int)
    requires n > 0
    ensures d >= 1 ==> d * n >= n
    ensures d <= -1 ==> d * n <= -n
  {
  }

  /** Integer division is determined by quotient and remainder. */
  lemma DivUnique(j: int, n: int, q: int, r: int)
    requires n > 0 && 0 <= r < n && j == q * n + r
    ensures j / n == q
  {
    var q', r' := j / n, j % n;
    assert j == q' * n + r';
    MultipleBounds(q - q', n);
    assert (q - q') * n == q * n - q' * n;
  }

  lemma DivStep(j: nat, n: nat)
    requires j >= n > 0
    ensures (j - n) / n == j / n - 1
  {
    var q, r := (j - n) / n, (j - n) % n;
    assert j - n == q * n + r;
    assert j == (q + 1) * n + r;
    DivUnique(j, n, q + 1, r);
  }

  // ---------------------------------------------------------------------
  // reward_function: the gripper task's reward from the goal distance.

  const GoalRadius: real := 10.0
  const FarDistance: real := 70.0
  const GoalReward: real := 800.0

  /** `torch.sqrt` is kept abstract: a square root of a non-negative
      number is a non-negative number whose square it is. */
  ghost predicate IsSqrt(sqrt: real -> real) {
    forall x :: x >= 0.0 ==> sqrt(x) >= 0.0 && sqrt(x) * sqrt(x) == x
  }

  /** The squared distance between the goal, the last two coordinates of
      the current state, and the object, coordinates -4 and -3 of the next
      state. */
  function GoalDistanceSq(curr: seq<real>, next: seq<real>): (sq: real)
    requires |curr| >= 2 && |next| >= 4
    ensures sq >= 0.0
  {
    var dx := curr[|curr| - 2] - next[|next| - 4];
    var dy := curr[|curr| - 1] - next[|next| - 3];
    dx * dx + dy * dy
  }

  /** `70 - d`, overridden with 800 within distance 10 of the goal and with
      0 beyond distance 70. */
  function RewardOfDistance(d: real): real {
    if d <= GoalRadius then GoalReward
    else if d > FarDistance then 0.0
    else FarDistance - d
  }

  /** The reward never rises as the object moves away from the goal. */
  lemma RewardNonIncreasing(d1: real, d2: real)
    requires 0.0 <= d1 <= d2
    ensures RewardOfDistance(d2) <= RewardOfDistance(d1)
  {
  }

  /** `reward_function` on a batch: one reward per row. The goal reward is
      paid exactly when the squared distance is at most 100, nothing is
      paid exactly when it is at least 4900, and in between the reward is
      70 minus the distance, strictly between 0 and 60. */
  function RewardFunction(curr: seq<seq<real>>, next: seq<seq<real>>, sqrt: real -> real): (rewards: seq<real>)
    requires |curr| == |next| && IsSqrt(sqrt)
    requires forall k :: 0 <= k < |curr| ==> |curr[k]| >= 2 && |next[k]| >= 4
    ensures |rewards| == |curr|
    ensures forall k :: 0 <= k < |curr| ==> RewardBands(rewards[k], GoalDistanceSq(curr[k], next[k]), sqrt)
  {
    var rewards := seq(|curr|, k requires 0 <= k < |curr| => RewardOfDistance(sqrt(GoalDistanceSq(curr[k], next[k]))));
    forall k | 0 <= k < |curr|
      ensures RewardBands(rewards[k], GoalDistanceSq(curr[k], next[k]), sqrt)
    {
      RewardOfSquaredDistance(GoalDistanceSq(curr[k], next[k]), sqrt);
    }
    rewards
  }

  /** The three bands of the reward, read off the squared distance. */
  ghost predicate RewardBands(r: real, sq: real, sqrt: real -> real) {
    && (r == GoalReward <==> sq <= GoalRadius * GoalRadius)
    && (r == 0.0 <==> sq >= FarDistance * FarDistance)
    && (GoalRadius * GoalRadius < sq < FarDistance * FarDistance ==>
          r == FarDistance - sqrt(sq) && 0.0 < r < FarDistance - GoalRadius)
  }

  lemma RewardOfSquaredDistance(sq: real, sqrt: real -> real)
    requires sq >= 0.0 && IsSqrt(sqrt)
    ensures RewardBands(RewardOfDistance(sqrt(sq)), sq, sqrt)
  {
    var d := sqrt(sq);
    assert d >= 0.0 && d * d == sq;
    SquareOrder(d, GoalRadius);
    SquareOrder(d, FarDistance);
  }

  // ---------------------------------------------------------------------
  // The rollout of _dyna_generate_and_train.

  /** `n` copies of `x`. */
  function Repeat<T>(x: T, n: nat): (r: seq<T>)
    ensures |r| == n && forall s :: 0 <= s < n ==> r[s] == x
  {
    seq(n, s => x)
  }

  /** `torch.repeat_interleave(rows, n, dim=0)`: each row repeated n times
      in place. */
  function RepeatInterleave<T>(rows: seq<T>, n: nat): (r: seq<T>)
    ensures |r| == |rows| * n
  {
    if rows == [] then [] else Repeat(rows[0], n) + RepeatInterleave(rows[1..], n)
  }

  /** Row j of `repeat_interleave(rows, n)` is row `j / n` of the input. */
  lemma {:induction false} RepeatInterleaveAt<T>(rows: seq<T>, n: nat, j: nat)
    requires n > 0 && j < |rows| * n
    ensures j / n < |rows|
    ensures RepeatInterleave(rows, n)[j] == rows[j / n]
  {
    if j < n {
      DivUnique(j, n, 0, j);
    } else {
      DivStep(j, n);
      assert (|rows| - 1) * n == |rows| * n - n;
      RepeatInterleaveAt(rows[1..], n, j - n);
    }
  }

  /** Every row of `repeat_interleave(rows, n)` is a row of the input. */
  lemma RepeatInterleaveRows<T>(rows: seq<T>, n: nat)
    ensures forall j :: 0 <= j < |rows| * n ==> RepeatInterleave(rows, n)[j] in rows
  {
    forall j | 0 <= j < |rows| * n ensures RepeatInterleave(rows, n)[j] in rows {
      RepeatInterleaveAt(rows, n, j);
    }
  }

  /** Rows in the stacked batch of a rollout of `horizon` steps from `start`
      rows, each step branching every row into `n`: `start * n` rows from
      the first step, then a rollout of `horizon - 1` steps from those. */
  function RolloutRows(start: nat, n: nat, horizon: nat): (rows: nat)
    decreases horizon
    ensures horizon > 0 ==> rows >= start * n
    ensures horizon > 0 && start > 0 && n > 0 ==> rows > 0
  {
    if horizon == 0 then 0 else start * n + RolloutRows(start * n, n, horizon - 1)
  }

  lemma MulAssociative(a: nat, b: nat, c: nat)
    ensures (a * b) * c == a * (b * c)
  {
  }

  /** `b` to the power `e`. */
  function Pow(b: nat, e: nat): nat {
    if e == 0 then 1 else b * Pow(b, e - 1)
  }

  /** `start * n + start * n^2 + ... + start * n^h`. */
  function LayerSum(start: nat, n: nat, h: nat): nat {
    if h == 0 then 0 else LayerSum(start, n, h - 1) + start * Pow(n, h)
  }

  /** Step k + 1 of a rollout from `start` rows adds `start * n^(k+1)` rows:
      after step k the predicted states number `start * n^k`, and each is
      branched into n. */
  lemma {:induction false} RolloutRowsStep(start: nat, n: nat, k: nat)
    decreases k
    ensures RolloutRows(start, n, k + 1) == RolloutRows(start, n, k) + start * Pow(n, k + 1)
  {
    var m := start * n;
    if k == 0 {
      assert Pow(n, 1) == n;
    } else {
      RolloutRowsStep(m, n, k - 1);
      var p := Pow(n, k);
      assert Pow(n, k + 1) == n * p;
      MulAssociative(start, n, p);
    }
  }

  /** The stacked batch of a rollout of h steps holds
      `start * n + start * n^2 + ... + start * n^h` rows. */
  lemma {:induction false} RolloutRowsIsLayerSum(start: nat, n: nat, h: nat)
    ensures RolloutRows(start, n, h) == LayerSum(start, n, h)
  {
    if h > 0 {
      RolloutRowsIsLayerSum(start, n, h - 1);
      RolloutRowsStep(start, n, h - 1);
    }
  }

  /** `pred_next_state[:, -2:] = pred_state[:, -2:]`: the goal coordinates
      are carried over from the current state. */
  function CopyGoal(states: seq<seq<real>>, next: seq<seq<real>>): (r: seq<seq<real>>)
    requires |states| == |next|
    requires forall k :: 0 <= k < |states| ==> |states[k]| >= 2 && |next[k]| == |states[k]|
    ensures |r| == |next|
    ensures forall k :: 0 <= k < |r| ==>
              && |r[k]| == |next[k]|
              && r[k][..|r[k]| - 2] == next[k][..|next[k]| - 2]
              && r[k][|r[k]| - 2..] == states[k][|states[k]| - 2..]
  {
    seq(|next|, k requires 0 <= k < |next| => WithGoal(states[k], next[k]))
  }

  /** A predicted state `p` with the goal of `s`, its last two coordinates. */
  function WithGoal(s: seq<real>, p: seq<real>): (r: seq<real>)
    requires |s| >= 2 && |p| >= 2
    ensures |r| == |p|
  {
    p[..|p| - 2] + s[|s| - 2..]
  }

  /** A reward the gripper reward function can pay. */
  predicate GripperReward(r: real) {
    r == GoalReward || 0.0 <= r < FarDistance - GoalRadius
  }

  /** Every predicted next state has the dimension of its state. */
  predicate ShapeKept(states: seq<seq<real>>, nextStates: seq<seq<real>>) {
    |states| == |nextStates| && forall r :: 0 <= r < |states| ==> |nextStates[r]| == |states[r]|
  }

  /** Row j of each of the tensors a rollout step stacks: the state, the
      action, the reward, the next state and the weight. */
  datatype Row = Row(state: seq<real>, action: seq<real>, reward: real, nextState: seq<real>, weight: real)

  function StatesOf(rows: seq<Row>): (s: seq<seq<real>>)
    ensures |s| == |rows| && forall j :: 0 <= j < |rows| ==> s[j] == rows[j].state
  {
    seq(|rows|, j requires 0 <= j < |rows| => rows[j].state)
  }

  function ActionsOf(rows: seq<Row>): (s: seq<seq<real>>)
    ensures |s| == |rows| && forall j :: 0 <= j < |rows| ==> s[j] == rows[j].action
  {
    seq(|rows|, j requires 0 <= j < |rows| => rows[j].action)
  }

  function RewardsOf(rows: seq<Row>): (s: seq<real>)
    ensures |s| == |rows| && forall j :: 0 <= j < |rows| ==> s[j] == rows[j].reward
  {
    seq(|rows|, j requires 0 <= j < |rows| => rows[j].reward)
  }

  function NextStatesOf(rows: seq<Row>): (s: seq<seq<real>>)
    ensures |s| == |rows| && forall j :: 0 <= j < |rows| ==> s[j] == rows[j].nextState
  {
    seq(|rows|, j requires 0 <= j < |rows| => rows[j].nextState)
  }

  function WeightsOf(rows: seq<Row>): (s: seq<real>)
    ensures |s| == |rows| && forall j :: 0 <= j < |rows| ==> s[j] == rows[j].weight
  {
    seq(|rows|, j requires 0 <= j < |rows| => rows[j].weight)
  }

  /** The networks a rollout consults, as functions: the actor, the world
      model, the reward model and the uncertainty weighting (`sampling`).
      The step number and the row number stand for the randomness of their
      sampling. The world model gives coordinate i of the next state it
      predicts, so a prediction has the dimension of its state, and the
      weighting gives the weight of row j of the batch it weighs. */
  datatype Networks = Networks(
    actor: (nat, nat, seq<real>) -> seq<real>,
    world: (nat, nat, seq<real>, seq<real>, nat) -> real,
    rewardModel: (nat, nat, seq<real>, seq<real>, seq<real>) -> real,
    weigh: (nat, seq<seq<real>>, nat) -> real)

  /** What of the agent a rollout reads: `self.num_samples`, `self.gripper`,
      its networks and `torch.sqrt`. */
  datatype Agent = Agent(numSamples: nat, gripper: bool, nets: Networks, sqrt: real -> real)

  /** In gripper mode a state holds at least an object position and a goal
      (four coordinates). */
  predicate WideEnough(states: seq<seq<real>>, gripper: bool) {
    gripper ==> forall r :: 0 <= r < |states| ==> |states[r]| >= 4
  }

  /** `self.actor_net(pred_state)`: one action per state. */
  function Actions(step: nat, states: seq<seq<real>>, agent: Agent): (acts: seq<seq<real>>)
    ensures |acts| == |states|
  {
    seq(|states|, j requires 0 <= j < |states| => agent.nets.actor(step, j, states[j]))
  }

  /** `self.world_model.pred_next_states(pred_state, pred_acts)`. */
  function Predictions(step: nat, states: seq<seq<real>>, acts: seq<seq<real>>, agent: Agent): (next: seq<seq<real>>)
    requires |acts| == |states|
    ensures ShapeKept(states, next)
  {
    seq(|states|, j requires 0 <= j < |states| => Prediction(step, j, states[j], acts[j], agent))
  }

  /** The world model's prediction for row j. */
  function Prediction(step: nat, j: nat, s: seq<real>, a: seq<real>, agent: Agent): (p: seq<real>)
    ensures |p| == |s|
  {
    seq(|s|, i requires 0 <= i < |s| => agent.nets.world(step, j, s, a, i))
  }

  /** The weights `sampling` gives a batch of branched states. */
  function Weights(step: nat, states: seq<seq<real>>, agent: Agent): (w: seq<real>)
    ensures |w| == |states|
  {
    seq(|states|, j requires 0 <= j < |states| => agent.nets.weigh(step, states, j))
  }

  /** `self.world_model.pred_rewards(...)`: one reward per row. */
  function ModelRewards(step: nat, states: seq<seq<real>>, acts: seq<seq<real>>, next: seq<seq<real>>, agent: Agent): (rewards: seq<real>)
    requires |acts| == |states| && |next| == |states|
    ensures |rewards| == |states|
  {
    seq(|states|, j requires 0 <= j < |states| => agent.nets.rewardModel(step, j, states[j], acts[j], next[j]))
  }

  /** A row a rollout step can stack: its next state has the dimension of
      its state, and in gripper mode it keeps its goal, the last two
      coordinates, and is paid a gripper reward. */
  predicate RowWellFormed(r: Row, gripper: bool) {
    && |r.nextState| == |r.state|
    && (gripper ==>
          && |r.state| >= 4
          && r.nextState[|r.nextState| - 2..] == r.state[|r.state| - 2..]
          && GripperReward(r.reward))
  }

  predicate WellFormedRows(rows: seq<Row>, gripper: bool) {
    forall j :: 0 <= j < |rows| ==> RowWellFormed(rows[j], gripper)
  }

  /** In gripper mode the states a step predicts are wide enough to be the
      input of the next step. */
  lemma NextStatesWide(rows: seq<Row>, gripper: bool)
    requires WellFormedRows(rows, gripper)
    ensures WideEnough(NextStatesOf(rows), gripper)
  {
    if gripper {
      forall r | 0 <= r < |rows| ensures |NextStatesOf(rows)[r]| >= 4 {
        assert RowWellFormed(rows[r], gripper);
      }
    }
  }

  /** Row j of rollout step `step`, for the branched state `s` weighed `w`:
      the actor picks the action and the world model predicts the next
      state. In gripper mode the reward is the goal-distance reward of the
      prediction, and then the goal is carried over into the next state;
      otherwise the reward model pays the reward and the prediction is
      kept as it is. */
  function StepRow(step: nat, j: nat, s: seq<real>, w: real, agent: Agent): (r: Row)
    requires agent.gripper ==> |s| >= 4
    ensures r.state == s && r.weight == w && RowWellFormed(r, agent.gripper)
  {
    var a := agent.nets.actor(step, j, s);
    var p := Prediction(step, j, s, a, agent);
    if agent.gripper then
      Row(s, a, RewardOfDistance(agent.sqrt(GoalDistanceSq(s, p))), WithGoal(s, p), w)
    else
      Row(s, a, agent.nets.rewardModel(step, j, s, a, p), p, w)
  }

  /** One pass of the rollout loop: the predicted states are branched into
      `numSamples` copies each, the weighting weighs the branched states,
      and row j is `StepRow` of the j-th branched state. */
  function RolloutStep(step: nat, predState: seq<seq<real>>, agent: Agent): (rows: seq<Row>)
    requires WideEnough(predState, agent.gripper)
    ensures StatesOf(rows) == RepeatInterleave(predState, agent.numSamples)
    ensures WellFormedRows(rows, agent.gripper)
  {
    var branched := RepeatInterleave(predState, agent.numSamples);
    BranchedWide(predState, agent.numSamples, agent.gripper);
    var rows := seq(|branched|, j requires 0 <= j < |branched| => StepRow(step, j, branched[j], agent.nets.weigh(step, branched, j), agent));
    forall j | 0 <= j < |rows| ensures StatesOf(rows)[j] == branched[j] && RowWellFormed(rows[j], agent.gripper) {
      assert rows[j] == StepRow(step, j, branched[j], agent.nets.weigh(step, branched, j), agent);
    }
    assert StatesOf(rows) == branched;
    rows
  }

  /** Branching keeps states wide enough. */
  lemma BranchedWide(predState: seq<seq<real>>, n: nat, gripper: bool)
    requires WideEnough(predState, gripper)
    ensures WideEnough(RepeatInterleave(predState, n), gripper)
  {
    RepeatInterleaveRows(predState, n);
  }

  /** What each tensor of a rollout step holds: the actor's actions of the
      branched states and their weights, and in gripper mode the
      goal-distance reward of the world model's prediction and that
      prediction with the goal carried over, otherwise the reward model's
      reward and the prediction itself. */
  lemma RolloutStepRows(step: nat, predState: seq<seq<real>>, agent: Agent)
    requires WideEnough(predState, agent.gripper) && (agent.gripper ==> IsSqrt(agent.sqrt))
    ensures var rows := RolloutStep(step, predState, agent);
            var states := RepeatInterleave(predState, agent.numSamples);
            var acts := Actions(step, states, agent);
            var predicted := Predictions(step, states, acts, agent);
            && StatesOf(rows) == states
            && ActionsOf(rows) == acts
            && WeightsOf(rows) == Weights(step, states, agent)
            && if agent.gripper then
                 && RewardsOf(rows) == RewardFunction(states, predicted, agent.sqrt)
                 && NextStatesOf(rows) == CopyGoal(states, predicted)
               else
                 && RewardsOf(rows) == ModelRewards(step, states, acts, predicted, agent)
                 && NextStatesOf(rows) == predicted
  {
    var rows := RolloutStep(step, predState, agent);
    var states := RepeatInterleave(predState, agent.numSamples);
    BranchedWide(predState, agent.numSamples, agent.gripper);
    var acts := Actions(step, states, agent);
    var weights := Weights(step, states, agent);
    forall j | 0 <= j < |rows|
      ensures ActionsOf(rows)[j] == acts[j] && WeightsOf(rows)[j] == weights[j]
    {
      assert rows[j] == StepRow(step, j, states[j], weights[j], agent);
    }
    assert ActionsOf(rows) == acts;
    assert WeightsOf(rows) == weights;
    if agent.gripper {
      GripperStepRows(step, predState, agent);
    } else {
      ModelStepRows(step, predState, agent);
    }
  }

  /** The gripper half of `RolloutStepRows`. */
  lemma GripperStepRows(step: nat, predState: seq<seq<real>>, agent: Agent)
    requires agent.gripper && IsSqrt(agent.sqrt) && WideEnough(predState, agent.gripper)
    ensures var rows := RolloutStep(step, predState, agent);
            var states := RepeatInterleave(predState, agent.numSamples);
            var predicted := Predictions(step, states, Actions(step, states, agent), agent);
            && RewardsOf(rows) == RewardFunction(states, predicted, agent.sqrt)
            && NextStatesOf(rows) == CopyGoal(states, predicted)
  {
    GripperRewards(step, predState, agent);
    GripperNextStates(step, predState, agent);
  }

  lemma GripperRewards(step: nat, predState: seq<seq<real>>, agent: Agent)
    requires agent.gripper && IsSqrt(agent.sqrt) && WideEnough(predState, agent.gripper)
    ensures var rows := RolloutStep(step, predState, agent);
            var states := RepeatInterleave(predState, agent.numSamples);
            var predicted := Predictions(step, states, Actions(step, states, agent), agent);
            RewardsOf(rows) == RewardFunction(states, predicted, agent.sqrt)
  {
    var rows := RolloutStep(step, predState, agent);
    var states := RepeatInterleave(predState, agent.numSamples);
    BranchedWide(predState, agent.numSamples, agent.gripper);
    var acts := Actions(step, states, agent);
    var predicted := Predictions(step, states, acts, agent);
    var weights := Weights(step, states, agent);
    var rewards := RewardFunction(states, predicted, agent.sqrt);
    forall j | 0 <= j < |rows| ensures RewardsOf(rows)[j] == rewards[j] {
      assert rows[j] == StepRow(step, j, states[j], weights[j], agent);
      assert predicted[j] == Prediction(step, j, states[j], acts[j], agent);
    }
    assert RewardsOf(rows) == rewards;
  }

  lemma GripperNextStates(step: nat, predState: seq<seq<real>>, agent: Agent)
    requires agent.gripper && WideEnough(predState, agent.gripper)
    ensures var rows := RolloutStep(step, predState, agent);
            var states := RepeatInterleave(predState, agent.numSamples);
            var predicted := Predictions(step, states, Actions(step, states, agent), agent);
            NextStatesOf(rows) == CopyGoal(states, predicted)
  {
    var rows := RolloutStep(step, predState, agent);
    var states := RepeatInterleave(predState, agent.numSamples);
    BranchedWide(predState, agent.numSamples, agent.gripper);
    var acts := Actions(step, states, agent);
    var predicted := Predictions(step, states, acts, agent);
    var weights := Weights(step, states, agent);
    var next := CopyGoal(states, predicted);
    forall j | 0 <= j < |rows| ensures NextStatesOf(rows)[j] == next[j] {
      assert rows[j] == StepRow(step, j, states[j], weights[j], agent);
      assert predicted[j] == Prediction(step, j, states[j], acts[j], agent);
      assert next[j] == WithGoal(states[j], predicted[j]);
    }
    assert NextStatesOf(rows) == next;
  }

  /** The reward-model half of `RolloutStepRows`. */
  lemma ModelStepRows(step: nat, predState: seq<seq<real>>, agent: Agent)
    requires !agent.gripper
    ensures var rows := RolloutStep(step, predState, agent);
            var states := RepeatInterleave(predState, agent.numSamples);
            var acts := Actions(step, states, agent);
            var predicted := Predictions(step, states, acts, agent);
            && RewardsOf(rows) == ModelRewards(step, states, acts, predicted, agent)
            && NextStatesOf(rows) == predicted
  {
    var rows := RolloutStep(step, predState, agent);
    var states := RepeatInterleave(predState, agent.numSamples);
    var acts := Actions(step, states, agent);
    var predicted := Predictions(step, states, acts, agent);
    var weights := Weights(step, states, agent);
    var rewards := ModelRewards(step, states, acts, predicted, agent);
    forall j | 0 <= j < |rows| ensures RewardsOf(rows)[j] == rewards[j] && NextStatesOf(rows)[j] == predicted[j] {
      assert rows[j] == StepRow(step, j, states[j], weights[j], agent);
      assert predicted[j] == Prediction(step, j, states[j], acts[j], agent);
    }
    assert RewardsOf(rows) == rewards;
    assert NextStatesOf(rows) == predicted;
  }

  /** `n^k * n == n^(k+1)`, scaled by the number of starting rows. */
  lemma LayerGrowth(start: nat, n: nat, k: nat)
    ensures start * Pow(n, k) * n == start * Pow(n, k + 1)
  {
    MulAssociative(start, Pow(n, k), n);
    assert Pow(n, k) * n == n * Pow(n, k);
  }

  /** `pred_state` when rollout step k begins: `start` for k = 0, and
      otherwise the next states step k - 1 predicted. There are
      `|start| * n^k` of them. */
  function StatesAfter(start: seq<seq<real>>, k: nat, agent: Agent): (s: seq<seq<real>>)
    requires WideEnough(start, agent.gripper)
    decreases k
    ensures WideEnough(s, agent.gripper)
    ensures |s| == |start| * Pow(agent.numSamples, k)
  {
    if k == 0 then start
    else
      var rows := RolloutStep(k - 1, StatesAfter(start, k - 1, agent), agent);
      NextStatesWide(rows, agent.gripper);
      LayerGrowth(|start|, agent.numSamples, k - 1);
      NextStatesOf(rows)
  }

  /** The rows the first k rollout steps stack: those of the first k - 1
      steps, then the rows of step k - 1. */
  function Stacked(start: seq<seq<real>>, k: nat, agent: Agent): (u: seq<Row>)
    requires WideEnough(start, agent.gripper)
    decreases k
    ensures |u| == RolloutRows(|start|, agent.numSamples, k)
  {
    if k == 0 then []
    else
      RolloutRowsStep(|start|, agent.numSamples, k - 1);
      LayerGrowth(|start|, agent.numSamples, k - 1);
      Stacked(start, k - 1, agent) + RolloutStep(k - 1, StatesAfter(start, k - 1, agent), agent)
  }

  /** Every stacked row keeps the dimension of its state, and in gripper
      mode its goal, and is paid a gripper reward. */
  lemma {:induction false} StackedWellFormed(start: seq<seq<real>>, k: nat, agent: Agent)
    requires WideEnough(start, agent.gripper)
    decreases k
    ensures WellFormedRows(Stacked(start, k, agent), agent.gripper)
  {
    if k > 0 {
      StackedWellFormed(start, k - 1, agent);
      var layer := RolloutStep(k - 1, StatesAfter(start, k - 1, agent), agent);
      AppendWellFormed(Stacked(start, k - 1, agent), layer, agent.gripper);
    }
  }

  lemma AppendWellFormed(a: seq<Row>, b: seq<Row>, gripper: bool)
    requires WellFormedRows(a, gripper) && WellFormedRows(b, gripper)
    ensures WellFormedRows(a + b, gripper)
  {
    forall j | 0 <= j < |a + b| ensures RowWellFormed((a + b)[j], gripper) {
      if j < |a| {
        assert (a + b)[j] == a[j];
      } else {
        assert (a + b)[j] == b[j - |a|];
      }
    }
  }

  /** Later steps only append: the rows of the first k steps begin the
      rows of the first m >= k steps. */
  lemma {:induction false} StackedPrefix(start: seq<seq<real>>, k: nat, m: nat, agent: Agent)
    requires WideEnough(start, agent.gripper) && k <= m
    decreases m
    ensures |Stacked(start, k, agent)| <= |Stacked(start, m, agent)|
    ensures Stacked(start, m, agent)[..|Stacked(start, k, agent)|] == Stacked(start, k, agent)
  {
    if k < m {
      StackedPrefix(start, k, m - 1, agent);
      var layer := RolloutStep(m - 1, StatesAfter(start, m - 1, agent), agent);
      PrefixOfAppend(Stacked(start, m - 1, agent), layer, |Stacked(start, k, agent)|);
    }
  }

  lemma PrefixOfAppend<T>(a: seq<T>, b: seq<T>, x: nat)
    requires x <= |a|
    ensures (a + b)[..x] == a[..x]
  {
  }

  lemma SuffixOfPrefix<T>(whole: seq<T>, a: seq<T>, b: seq<T>)
    requires |a| + |b| <= |whole| && whole[..|a| + |b|] == a + b
    ensures whole[|a|..|a| + |b|] == b
  {
    forall i | 0 <= i < |b| ensures whole[|a|..|a| + |b|][i] == b[i] {
      assert whole[..|a| + |b|][|a| + i] == whole[|a| + i];
    }
  }

  /** Layer k of the stacked rows of a rollout of m > k steps: rows
      `RolloutRows(|start|, n, k)` up to `RolloutRows(|start|, n, k + 1)`,
      `|start| * n^(k+1)` of them, are the rows of rollout step k on the
      states step k - 1 predicted, and the states step k predicts are the
      input of step k + 1. */
  lemma StackedLayer(start: seq<seq<real>>, m: nat, k: nat, agent: Agent)
    requires WideEnough(start, agent.gripper) && k < m
    ensures var n := agent.numSamples;
            var lo, hi := RolloutRows(|start|, n, k), RolloutRows(|start|, n, k + 1);
            var layer := RolloutStep(k, StatesAfter(start, k, agent), agent);
            && hi == lo + |start| * Pow(n, k + 1)
            && hi <= |Stacked(start, m, agent)|
            && Stacked(start, m, agent)[lo..hi] == layer
            && StatesAfter(start, k + 1, agent) == NextStatesOf(layer)
  {
    var layer := RolloutStep(k, StatesAfter(start, k, agent), agent);
    var before := Stacked(start, k, agent);
    StackedPrefix(start, k + 1, m, agent);
    RolloutRowsStep(|start|, agent.numSamples, k);
    assert Stacked(start, k + 1, agent) == before + layer;
    SuffixOfPrefix(Stacked(start, m, agent), before, layer);
  }

  /** The synthetic batch handed to `_train_policy`: the stacked rows, row
      j of every tensor being `rows[j]`, and one done flag per row. */
  datatype SyntheticBatch = SyntheticBatch(rows: seq<Row>, dones: seq<real>)

  /** The loop of `_dyna_generate_and_train`: `horizon` rollout steps,
      each step's rows appended to the stacked tensors (appending is what
      `vstack` of the appended list gives), every done flag 0. The batch
      holds `|start| * n + |start| * n^2 + ... + |start| * n^horizon` rows. */
  method StackSteps(start: seq<seq<real>>, horizon: nat, agent: Agent) returns (b: SyntheticBatch)
    requires WideEnough(start, agent.gripper)
    ensures b.rows == Stacked(start, horizon, agent)
    ensures |b.rows| == LayerSum(|start|, agent.numSamples, horizon)
    ensures |b.dones| == |b.rows| && forall j :: 0 <= j < |b.dones| ==> b.dones[j] == 0.0
  {
    var stacked := [];
    var predState := start;
    for step := 0 to horizon
      invariant predState == StatesAfter(start, step, agent)
      invariant stacked == Stacked(start, step, agent)
    {
      var rows := RolloutStep(step, predState, agent);
      NextStatesWide(rows, agent.gripper);
      stacked := stacked + rows;
      predState := NextStatesOf(rows);
    }
    RolloutRowsIsLayerSum(|start|, agent.numSamples, horizon);
    b := SyntheticBatch(stacked, Zeros(|stacked|));
  }

  /** `_dyna_generate_and_train` up to the training call: the stacked
      rollout of `StackSteps`, which is never empty; or a raise when there
      is nothing to stack: with no step at all `torch.vstack([])` refuses
      the empty list, and with an empty branched batch the first step's
      `sampling` takes `torch.min` of an empty tensor. */
  method Rollout(start: seq<seq<real>>, horizon: nat, agent: Agent) returns (r: Result<SyntheticBatch>)
    requires WideEnough(start, agent.gripper)
    ensures r.Err? <==> horizon == 0 || |start| * agent.numSamples == 0
    ensures r.Err? ==> r.error == EmptyReduction
    ensures r.Ok? ==> r.value.rows == Stacked(start, horizon, agent)
    ensures r.Ok? ==> |r.value.rows| == LayerSum(|start|, agent.numSamples, horizon) > 0
    ensures r.Ok? ==> |r.value.dones| == |r.value.rows| && forall j :: 0 <= j < |r.value.dones| ==> r.value.dones[j] == 0.0
  {
    if horizon == 0 || |start| * agent.numSamples == 0 {
      return Err(EmptyReduction);
    }
    var b := StackSteps(start, horizon, agent);
    assert |start| > 0 && agent.numSamples > 0;
    assert |b.rows| == RolloutRows(|start|, agent.numSamples, horizon) > 0;
    r := Ok(b);
  }

  // ---------------------------------------------------------------------
  // sampling: the total variance of the sampled returns.

  /** `torch.mean` over the samples. */
  function Mean(xs: seq<real>): real
    requires xs != []
  {
    Sum(xs) / (|xs| as real)
  }

  /** The elementwise products of the deviations of xs and ys from their
      means. */
  function DeviationProducts(xs: seq<real>, ys: seq<real>): (p: seq<real>)
    requires |xs| == |ys| && xs != []
    ensures |p| == |xs|
    ensures forall k :: 0 <= k < |xs| ==> p[k] == (xs[k] - Mean(xs)) * (ys[k] - Mean(ys))
  {
    var mx, my := Mean(xs), Mean(ys);
    seq(|xs|, k requires 0 <= k < |xs| => (xs[k] - mx) * (ys[k] - my))
  }

  /** `torch.var`, the unbiased sample variance (divided by n - 1). */
  function Variance(xs: seq<real>): real
    requires |xs| >= 2
  {
    Sum(DeviationProducts(xs, xs)) / ((|xs| - 1) as real)
  }

  /** The covariance of `sampling`, the mean of the products of deviations
      from the population means (divided by n). */
  function Covariance(xs: seq<real>, ys: seq<real>): real
    requires |xs| == |ys| && xs != []
  {
    Mean(DeviationProducts(xs, ys))
  }

  /** `var_r + γ²·var_a + γ²·var_q + 2γ²·(cov_aq + cov_rq + cov_ra)` for one
      row, from its samples of reward, log-probability and Q value. */
  function TotalVariance(r: seq<real>, a: seq<real>, q: seq<real>, gamma: real): real
    requires |r| == |a| == |q| >= 2
  {
    var g2 := gamma * gamma;
    Variance(r) + g2 * Variance(a) + g2 * Variance(q)
      + g2 * 2.0 * Covariance(a, q) + g2 * 2.0 * Covariance(r, q) + g2 * 2.0 * Covariance(r, a)
  }

  /** The sample variance is never negative. */
  lemma VarianceNonNegative(xs: seq<real>)
    requires |xs| >= 2
    ensures Variance(xs) >= 0.0
  {
    var p := DeviationProducts(xs, xs);
    forall k | 0 <= k < |p| ensures p[k] >= 0.0 {
      var d := xs[k] - Mean(xs);
      assert p[k] == d * d;
    }
    SumAtLeastTerm(p, 0);
  }

  /** The covariance does not depend on the order of its arguments. */
  lemma CovarianceSymmetric(xs: seq<real>, ys: seq<real>)
    requires |xs| == |ys| && xs != []
    ensures Covariance(xs, ys) == Covariance(ys, xs)
  {
    var p, p' := DeviationProducts(xs, ys), DeviationProducts(ys, xs);
    assert p == p' by {
      forall k | 0 <= k < |xs| ensures p[k] == p'[k] {
        var dx, dy := xs[k] - Mean(xs), ys[k] - Mean(ys);
        assert p[k] == dx * dy && p'[k] == dy * dx;
      }
    }
  }

  /** The mean of n copies of c is c. */
  lemma {:induction false} SumOfConstant(xs: seq<real>, c: real)
    requires forall k :: 0 <= k < |xs| ==> xs[k] == c
    ensures Sum(xs) == (|xs| as real) * c
  {
    if xs != [] {
      SumOfConstant(xs[1..], c);
    }
  }

  lemma SumOfZeros(xs: seq<real>)
    requires forall k :: 0 <= k < |xs| ==> xs[k] == 0.0
    ensures Sum(xs) == 0.0
  {
    SumOfConstant(xs, 0.0);
  }

  /** When every sample of a quantity is the same, its deviations vanish. */
  lemma ConstantDeviations(xs: seq<real>, ys: seq<real>)
    requires |xs| == |ys| && xs != []
    requires forall k :: 0 <= k < |xs| ==> xs[k] == xs[0]
    ensures Sum(DeviationProducts(xs, ys)) == 0.0
  {
    SumOfConstant(xs, xs[0]);
    assert Mean(xs) == xs[0];
    var p := DeviationProducts(xs, ys);
    forall k | 0 <= k < |p| ensures p[k] == 0.0 {
      assert xs[k] - Mean(xs) == 0.0;
    }
    SumOfZeros(p);
  }

  /** Models that agree on every sample leave no uncertainty: the total
      variance of constant samples is 0. */
  lemma AgreementMeansNoVariance(r: seq<real>, a: seq<real>, q: seq<real>, gamma: real)
    requires |r| == |a| == |q| >= 2
    requires forall k :: 0 <= k < |r| ==> r[k] == r[0] && a[k] == a[0] && q[k] == q[0]
    ensures TotalVariance(r, a, q, gamma) == 0.0
  {
    ConstantDeviations(r, r);
    ConstantDeviations(a, a);
    ConstantDeviations(q, q);
    ConstantDeviations(a, q);
    ConstantDeviations(r, q);
    ConstantDeviations(r, a);
  }

  /** Column `b` of samples stacked as `[sample][row]`. */
  function Column(samples: seq<seq<real>>, b: nat): (c: seq<real>)
    requires forall s :: 0 <= s < |samples| ==> b < |samples[s]|
    ensures |c| == |samples| && forall s :: 0 <= s < |samples| ==> c[s] == samples[s][b]
  {
    seq(|samples|, s requires 0 <= s < |samples| => samples[s][b])
  }

  /** The total variance of every row of the batch (`dim=0` reductions over
      the stacked samples `r_s`, `act_logs`, `q_s`). */
  function TotalVariances(rs: seq<seq<real>>, acts: seq<seq<real>>, qs: seq<seq<real>>, rows: nat, gamma: real): (v: seq<real>)
    requires |rs| == |acts| == |qs| >= 2
    requires forall s :: 0 <= s < |rs| ==> |rs[s]| == rows && |acts[s]| == rows && |qs[s]| == rows
    ensures |v| == rows
    ensures forall b :: 0 <= b < rows ==> v[b] == TotalVariance(Column(rs, b), Column(acts, b), Column(qs, b), gamma)
  {
    seq(rows, b requires 0 <= b < rows => TotalVariance(Column(rs, b), Column(acts, b), Column(qs, b), gamma))
  }

  // ---------------------------------------------------------------------
  // sampling: from total variance to weights.

  /** A fraction of a non-negative span. */
  lemma FractionOfSpan(t: real, d: real, span: real)
    requires d >= 0.0 && span == t * d
    ensures 0.0 <= t ==> span >= 0.0
    ensures 0.0 <= t < 1.0 && d > 0.0 ==> span < d
  {
    if 0.0 <= t < 1.0 && d > 0.0 {
      assert d - span == (1.0 - t) * d;
    }
  }

  /** `t * (hi - lo) + lo`: for t in [0, 1) a point of [lo, hi), or lo when
      the interval is a single point. */
  function Interpolate(t: real, lo: real, hi: real): (x: real)
    requires lo <= hi
    ensures 0.0 <= t ==> lo <= x
    ensures 0.0 <= t < 1.0 && hi > lo ==> x < hi
  {
    var d := hi - lo;
    var span := t * d;
    FractionOfSpan(t, d, span);
    span + lo
  }

  lemma MinAtMostMax(v: seq<real>)
    requires v != []
    ensures Min(v) <= Max(v)
  {
    assert Min(v) <= v[0] <= Max(v);
  }

  /** `threshold * (max - min) + min`: for a threshold in [0, 1) a value at
      or above the smallest variance and below the largest, unless all are
      equal. */
  function Threshold(v: seq<real>, t: real): (th: real)
    requires v != []
    ensures 0.0 <= t ==> Min(v) <= th
    ensures 0.0 <= t < 1.0 && Max(v) > Min(v) ==> th < Max(v)
  {
    MinAtMostMax(v);
    Interpolate(t, Min(v), Max(v))
  }

  /** `total_var[total_var <= threshold] = threshold`. */
  function Floor(v: seq<real>, threshold: real): (f: seq<real>)
    ensures |f| == |v|
    ensures forall k :: 0 <= k < |v| ==> f[k] >= threshold
    ensures forall k :: 0 <= k < |v| ==> (f[k] == v[k] || f[k] == threshold)
    ensures forall k :: 0 <= k < |v| && v[k] > threshold ==> f[k] == v[k]
  {
    seq(|v|, k requires 0 <= k < |v| => if v[k] <= threshold then threshold else v[k])
  }

  /** `1 / total_var`. */
  function Inverse(f: seq<real>): (inv: seq<real>)
    requires forall k :: 0 <= k < |f| ==> f[k] != 0.0
    ensures |inv| == |f|
    ensures forall k :: 0 <= k < |f| ==> inv[k] == 1.0 / f[k]
  {
    seq(|f|, k requires 0 <= k < |f| => 1.0 / f[k])
  }

  const WeightOffset: real := 0.0001

  /** `(w - min) / (max - min) + 0.0001`. */
  function MinMaxScale(w: seq<real>): (s: seq<real>)
    requires w != [] && Max(w) > Min(w)
    ensures |s| == |w|
    ensures forall k :: 0 <= k < |w| ==> s[k] == Rescale(w[k], Min(w), Max(w)) + WeightOffset
  {
    var lo, hi := Min(w), Max(w);
    seq(|w|, k requires 0 <= k < |w| => Rescale(w[k], lo, hi) + WeightOffset)
  }

  /** Weights in [0.0001, 1.0001] that reach both ends. */
  predicate SpansWeightRange(s: seq<real>) {
    && (forall k :: 0 <= k < |s| ==> WeightOffset <= s[k] <= 1.0 + WeightOffset)
    && (exists k :: 0 <= k < |s| && s[k] == WeightOffset)
    && (exists k :: 0 <= k < |s| && s[k] == 1.0 + WeightOffset)
  }

  /** The scaled weights lie in [0.0001, 1.0001]; the smallest input is
      mapped to the lower end and the largest to the upper end. */
  lemma MinMaxScaleBounds(w: seq<real>)
    requires w != [] && Max(w) > Min(w)
    ensures SpansWeightRange(MinMaxScale(w))
  {
    var lo, hi := Min(w), Max(w);
    var s := MinMaxScale(w);
    forall k | 0 <= k < |w| ensures WeightOffset <= s[k] <= 1.0 + WeightOffset {
      RescaleBounds(w[k], lo, hi);
    }
    var i :| 0 <= i < |w| && w[i] == lo;
    RescaleBounds(w[i], lo, hi);
    assert s[i] == WeightOffset;
    var j :| 0 <= j < |w| && w[j] == hi;
    RescaleBounds(w[j], lo, hi);
    assert s[j] == 1.0 + WeightOffset;
  }

  /** The scaling keeps the order of the inputs. */
  lemma MinMaxScaleOrder(w: seq<real>, i: nat, j: nat)
    requires w != [] && Max(w) > Min(w)
    requires i < |w| && j < |w| && w[i] <= w[j]
    ensures MinMaxScale(w)[i] <= MinMaxScale(w)[j]
  {
    RescaleOrder(w[i], w[j], Min(w), Max(w));
  }

  /** The weights `sampling` returns for a batch of total variances, or
      None where some weight the code computes is NaN or infinite: a
      floored variance of 0 (its inverse is infinite, and the min-max
      scaling gives NaN in that row) or inverses that are all equal (the
      scaling divides 0 by 0 in every row). The code has no guard for
      either. */
  function UncertaintyWeights(v: seq<real>, t: real): (w: Option<seq<real>>)
    requires v != []
    ensures w.None? <==>
              (exists k :: 0 <= k < |v| && Floor(v, Threshold(v, t))[k] == 0.0)
              || Max(Inverse(Floor(v, Threshold(v, t)))) == Min(Inverse(Floor(v, Threshold(v, t))))
    ensures w.Some? ==> |w.value| == |v| && SpansWeightRange(w.value)
  {
    var f := Floor(v, Threshold(v, t));
    if exists k :: 0 <= k < |v| && f[k] == 0.0 then None
    else
      var inv := Inverse(f);
      if Max(inv) == Min(inv) then None
      else
        MinMaxScaleBounds(inv);
        Some(MinMaxScale(inv))
  }

  /** Above-threshold variances that are positive and spread out always
      give weights: with positive variances, `0 <= t < 1` and at least two
      different values, the floored variances are positive and do not all
      coincide. */
  lemma SpreadVariancesGiveWeights(v: seq<real>, t: real)
    requires v != [] && forall k :: 0 <= k < |v| ==> v[k] > 0.0
    requires 0.0 <= t < 1.0 && Max(v) > Min(v)
    ensures UncertaintyWeights(v, t).Some?
  {
    var lo, hi := Min(v), Max(v);
    var th := Threshold(v, t);
    var f := Floor(v, th);
    assert forall k :: 0 <= k < |v| ==> f[k] > 0.0;
    var inv := Inverse(f);
    var i :| 0 <= i < |v| && v[i] == hi;
    var j :| 0 <= j < |v| && v[j] == lo;
    assert f[i] == hi && f[j] == th;
    InverseStrict(th, hi);
    assert inv[i] < inv[j];
    assert Min(inv) <= inv[i] && inv[j] <= Max(inv);
    assert !(exists k :: 0 <= k < |v| && f[k] == 0.0);
    assert Max(inv) != Min(inv);
  }

  /** All-equal variances give no weights: the threshold is that value,
      every inverse is the same, and the scaling divides by zero. */
  lemma EqualVariancesGiveNoWeights(v: seq<real>, t: real)
    requires v != [] && forall k :: 0 <= k < |v| ==> v[k] == v[0]
    ensures UncertaintyWeights(v, t).None?
  {
    assert Max(v) == v[0] && Min(v) == v[0];
    var f := Floor(v, Threshold(v, t));
    assert forall k :: 0 <= k < |v| ==> f[k] == v[0];
    if forall k :: 0 <= k < |v| ==> f[k] != 0.0 {
      var inv := Inverse(f);
      assert forall k :: 0 <= k < |v| ==> inv[k] == 1.0 / v[0];
      assert Max(inv) == Min(inv);
    }
  }

  /** A row with lower total variance never gets a lower weight: certain
      predictions count more in the critic's loss. */
  lemma LowerVarianceWeighsMore(v: seq<real>, t: real, i: nat, j: nat)
    requires v != [] && forall k :: 0 <= k < |v| ==> v[k] > 0.0
    requires 0.0 <= t && UncertaintyWeights(v, t).Some?
    requires i < |v| && j < |v| && v[i] <= v[j]
    ensures UncertaintyWeights(v, t).value[j] <= UncertaintyWeights(v, t).value[i]
  {
    var th := Threshold(v, t);
    var f := Floor(v, th);
    assert 0.0 < f[i] <= f[j];
    var inv := Inverse(f);
    InverseAntitone(f[i], f[j]);
    assert UncertaintyWeights(v, t).value == MinMaxScale(inv);
    MinMaxScaleOrder(inv, j, i);
  }

  /** `sampling` after the network calls: `rs`, `acts` and `qs` hold, per
      sampled next state, the reward, the action log-probability and the
      target Q value of every row. Each row's weight lies in
      [0.0001, 1.0001], and the extremes are reached. */
  function Sampling(rs: seq<seq<real>>, acts: seq<seq<real>>, qs: seq<seq<real>>, rows: nat, gamma: real, t: real): (w: Option<seq<real>>)
    requires |rs| == |acts| == |qs| >= 2 && rows > 0
    requires forall s :: 0 <= s < |rs| ==> |rs[s]| == rows && |acts[s]| == rows && |qs[s]| == rows
    ensures w.Some? ==> |w.value| == rows && SpansWeightRange(w.value)
  {
    UncertaintyWeights(TotalVariances(rs, acts, qs, rows, gamma), t)
  }

  /** When every sampled next state gives a row the same reward, action
      log-probability and Q value, no row is uncertain and `sampling`
      yields no finite weights (every inverse variance is infinite). */
  lemma AgreeingSamplesGiveNoWeights(rs: seq<seq<real>>, acts: seq<seq<real>>, qs: seq<seq<real>>, rows: nat, gamma: real, t: real)
    requires |rs| == |acts| == |qs| >= 2 && rows > 0
    requires forall s :: 0 <= s < |rs| ==> |rs[s]| == rows && |acts[s]| == rows && |qs[s]| == rows
    requires forall s, b :: 0 <= s < |rs| && 0 <= b < rows ==>
               rs[s][b] == rs[0][b] && acts[s][b] == acts[0][b] && qs[s][b] == qs[0][b]
    ensures Sampling(rs, acts, qs, rows, gamma, t).None?
  {
    var v := TotalVariances(rs, acts, qs, rows, gamma);
    forall b | 0 <= b < rows ensures v[b] == 0.0 {
      AgreementMeansNoVariance(Column(rs, b), Column(acts, b), Column(qs, b), gamma);
    }
    EqualVariancesGiveNoWeights(v, t);
  }

  // ---------------------------------------------------------------------
  // _train_policy: weights and the critic target.

  /** `torch.ones(rewards.shape)` when no weights are given. Here None is
      Python's `weights=None`, not the None of `UncertaintyWeights` and
      `Sampling`: that one stands for weights the code computes as NaN or
      infinite, and passing it here would wrongly read them as all ones. */
  function DefaultWeights(weights: Option<seq<real>>, rows: nat): (w: seq<real>)
    requires weights.Some? ==> |weights.value| == rows
    ensures |w| == rows
    ensures weights.None? ==> forall k :: 0 <= k < rows ==> w[k] == 1.0
    ensures weights.Some? ==> w == weights.value
  {
    match weights
    case None => Repeat(1.0, rows)
    case Some(given) => given
  }

  /** `td_error.pow(2)`: the squared error of every row. */
  function SquaredErrors(targets: seq<real>, values: seq<real>): (e: seq<real>)
    requires |targets| == |values|
    ensures |e| == |targets| && AllNonNegative(e)
  {
    var e := seq(|targets|, k requires 0 <= k < |targets| => (targets[k] - values[k]) * (targets[k] - values[k]));
    forall k | 0 <= k < |e| ensures e[k] >= 0.0 {
      SquareNonNegative(targets[k] - values[k]);
    }
    e
  }

  lemma SquareNonNegative(x: real)
    ensures x * x >= 0.0
  {
    if x < 0.0 {
      ProductNonNegative(-x, -x);
      assert (-x) * (-x) == x * x;
    } else {
      ProductNonNegative(x, x);
    }
  }

  /** `errors * weights`, row by row. */
  function Weighted(errors: seq<real>, weights: seq<real>): (w: seq<real>)
    requires |errors| == |weights|
    ensures |w| == |errors|
  {
    seq(|errors|, k requires 0 <= k < |errors| => errors[k] * weights[k])
  }

  /** `0.5 * (td_error.pow(2) * weights).mean()`: the loss of one critic. */
  function CriticLoss(targets: seq<real>, values: seq<real>, weights: seq<real>): real
    requires |targets| == |values| == |weights| && targets != []
  {
    0.5 * Mean(Weighted(SquaredErrors(targets, values), weights))
  }

  /** Without weights the loss is half the mean squared error, the
      `F.mse_loss` the weighting replaced. */
  lemma UnweightedCriticLoss(targets: seq<real>, values: seq<real>)
    requires |targets| == |values| && targets != []
    ensures CriticLoss(targets, values, DefaultWeights(None, |targets|)) == 0.5 * Mean(SquaredErrors(targets, values))
  {
    var e := SquaredErrors(targets, values);
    var ones := DefaultWeights(None, |targets|);
    assert Weighted(e, ones) == e by {
      forall k | 0 <= k < |e| ensures Weighted(e, ones)[k] == e[k] {
        assert ones[k] == 1.0;
      }
    }
  }

  /** Non-negative weights, such as those `sampling` gives, keep the loss
      non-negative. */
  lemma CriticLossNonNegative(targets: seq<real>, values: seq<real>, weights: seq<real>)
    requires |targets| == |values| == |weights| && targets != []
    requires AllNonNegative(weights)
    ensures CriticLoss(targets, values, weights) >= 0.0
  {
    var e := SquaredErrors(targets, values);
    var w := Weighted(e, weights);
    forall k | 0 <= k < |w| ensures w[k] >= 0.0 {
      ProductNonNegative(e[k], weights[k]);
    }
    SumAtLeastTerm(w, 0);
  }

  /** `q_target = rewards + gamma * (1 - dones) * target_q_values`. */
  function CriticTargets(rewards: seq<real>, dones: seq<real>, targets: seq<real>, gamma: real): (q: seq<real>)
    requires |rewards| == |dones| == |targets|
    ensures |q| == |rewards|
  {
    seq(|rewards|, k requires 0 <= k < |rewards| => rewards[k] + gamma * (1.0 - dones[k]) * targets[k])
  }

  /** A terminal row's target is its reward alone; a non-terminal row adds
      the discounted target value. The synthetic batch, whose done flags
      are all 0, always bootstraps. */
  lemma CriticTargetBootstraps(rewards: seq<real>, dones: seq<real>, targets: seq<real>, gamma: real)
    requires |rewards| == |dones| == |targets|
    ensures forall k :: 0 <= k < |rewards| && dones[k] == 1.0 ==> CriticTargets(rewards, dones, targets, gamma)[k] == rewards[k]
    ensures forall k :: 0 <= k < |rewards| && dones[k] == 0.0 ==>
              CriticTargets(rewards, dones, targets, gamma)[k] == rewards[k] + gamma * targets[k]
  {
  }
}
