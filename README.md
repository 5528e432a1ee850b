# Replay memories and uncertainty weighting of a reinforcement-learning library

This project models, in Dafny, the experience-replay memories of the
`cares_reinforcement_learning` package and the non-network arithmetic of
its uncertainty-weighted Dyna-SAC agent (`DynaSAC_NS_IW`), and proves
properties of the model.

- `common.dfy` (module `Transitions`). The values a transition field
  holds, Python's truth value and `is False`, `zip(*rows)` as `Transpose`,
  NumPy fancy indexing as `Gather`, and the error kinds the buffers raise.
- `reals.dfy` (module `Reals`). `sum`, `max` and `min` over reals.
- `sum_tree.dfy` (module `SumTree`). The sum tree of priorities, seen
  through what the buffer uses of it. It has one non-negative leaf per
  slot, and its root is their sum. It supports `set` and `batch_set` with
  last-write-wins, and the condition a drawn leaf meets.
- `prioritised_replay_buffer.dfy` (module `PrioritisedReplay`). The class
  `PrioritizedReplayBuffer`. Its columns are arrays written in place, one
  slot per add at a circular write pointer. The module has uniform,
  priority, inverse-priority and consecutive sampling, priority updates,
  `flush` and `clear`, and the importance-weight computation.
- `memory_buffer.dfy` (module `Memory`). The class `MemoryBuffer`: a
  bounded deque of transitions with `sample`, `sample_consecutive`,
  `flush` and `clear`.
- `long_memory_buffer.dfy` (module `LongMemory`). The class
  `LongMemoryBuffer`, an episode store that replaces its lowest-reward
  episode when full.
- `dyna_sac_ns_iw.dfy` (module `Dyna`). The gripper reward as a function of
  goal distance, the rollout that builds the synthetic batch row by row and
  layer by layer, the total variance of sampled returns, the
  variance-to-weight map, and the critic target and weighted critic loss.

Randomness is supplied by the caller:
- `np.random.randint` draws are given as `draws`.
- Each call of `random.sample(range(m), k)` is given as a full random
  permutation of `range(m)`, of which the first k elements are taken.
- A sum-tree descent is given as the drawn leaves, and each drawn leaf
  must have positive priority.

`x ** e` is an abstract `power` function, and `torch.sqrt` is an abstract
`sqrt`. The actor, critic, world model and reward model are function
parameters.

Where the documentation and the code disagree, the model follows the
code:
- `sampling` divides by `max - min` of the inverse variances without a
  guard. When they all coincide the weights are NaN, and the model returns
  `None` there.
- The temporary tree in `sample_inverse_priority` is written through
  `batch_set` with the indices below `tree_pointer` only. After the buffer
  wraps around there are more inverse priorities than indices. If
  `batch_set` pairs them by position, the slots from `tree_pointer` to
  `current_size - 1` keep priority 0 and can never be drawn.
- `LongMemoryBuffer.add` uses `min_index`, which stays -1 while the buffer
  fills. So the first replacement of a full buffer evicts the newest
  entry (index -1), not the one with the lowest reward. The lemma
  `FirstReplacementHitsNewest` shows this on a concrete buffer.

## Model

| member | source | states |
|---|---|---|
| Transitions.Transpose | cares_reinforcement_learning/memory/memory_buffer.py:40 | `zip(*rows)` yields one tuple per field that every row has; field f of the result lists field f of every row in order |
| Transitions.TransposeTwice | cares_reinforcement_learning/memory/memory_buffer.py:95-98 | transposing equally long rows twice gives the rows back, so nothing is lost |
| Transitions.DistinctWithin | cares_reinforcement_learning/memory/prioritised_replay_buffer.py:297-304 | a repetition-free sequence drawn from a pool is no longer than the pool |
| SumTree.Fresh | cares_reinforcement_learning/memory/prioritised_replay_buffer.py:62 | a new tree has `capacity` leaves, all 0, and total 0 |
| SumTree.Set | cares_reinforcement_learning/memory/prioritised_replay_buffer.py:108-109 | `set` changes exactly one leaf, and the root moves by the difference |
| SumTree.BatchSetAt | cares_reinforcement_learning/memory/prioritised_replay_buffer.py:257-258 | after `batch_set`, a leaf holds the priority of its last write, or its old value when it is not written |
| SumTree.SingleWriteRoundTrip | cares_reinforcement_learning/memory/prioritised_replay_buffer.py:257-258 | reading back a written leaf gives the written priority |
| SumTree.BatchSetIdempotent | cares_reinforcement_learning/memory/prioritised_replay_buffer.py:257-258 | repeating the same `batch_set` changes nothing more |
| SumTree.DrawableMeansPositiveTotal | cares_reinforcement_learning/memory/prioritised_replay_buffer.py:164-170 | a tree with a drawable leaf has a positive root at least that leaf's priority |
| PrioritisedReplay.AddChangesOnlyPointerSlot | cares_reinforcement_learning/memory/prioritised_replay_buffer.py:88-106 | `add` rewrites exactly the pointer slot of each field's column; new columns start as None |
| PrioritisedReplay.PointerAdvance | cares_reinforcement_learning/memory/prioritised_replay_buffer.py:111 | the pointer moves by one and wraps to 0 at the capacity, tracking `t mod capacity` |
| PrioritisedReplay.NearbyPositionsDiffer | cares_reinforcement_learning/memory/prioritised_replay_buffer.py:98-111 | transitions fewer than `capacity` adds apart go to different slots |
| PrioritisedReplay.LastTransitionsKept | cares_reinforcement_learning/memory/prioritised_replay_buffer.py:78-112 | after any run of adds, every one of the last `capacity` transitions is stored field by field in its slot |
| PrioritisedReplay.RawWeights | cares_reinforcement_learning/memory/prioritised_replay_buffer.py:164-181 | each drawn slot's weight is `(p_i / total * N) ** (-beta)` and is positive |
| PrioritisedReplay.NormalizeByMax | cares_reinforcement_learning/memory/prioritised_replay_buffer.py:182 | after `weights /= weights.max()` every weight lies in (0, 1], one equals 1, and the order of the weights is kept both ways |
| PrioritisedReplay.ImportanceWeights | cares_reinforcement_learning/memory/prioritised_replay_buffer.py:164-182 | the returned importance weights lie in (0, 1], with the largest exactly 1 |
| PrioritisedReplay.RarerSlotsWeighMore | cares_reinforcement_learning/memory/prioritised_replay_buffer.py:164-182 | for beta > 0 and a decreasing power, a lower-priority draw never gets a lower weight |
| PrioritisedReplay.AnnealedBeta | cares_reinforcement_learning/memory/prioritised_replay_buffer.py:189 | beta grows by 2e-7 per sample and is capped at 1 |
| PrioritisedReplay.InversionReversesOrder | cares_reinforcement_learning/memory/prioritised_replay_buffer.py:220-225 | a higher priority gets an inverse priority that is not higher |
| PrioritisedReplay.InverseLeavesBelowPointer | cares_reinforcement_learning/memory/prioritised_replay_buffer.py:227-229 | the inverse tree holds inverse priorities below `tree_pointer` and 0 elsewhere |
| PrioritisedReplay.ConsecutiveNeedsEnoughCandidates | cares_reinforcement_learning/memory/prioritised_replay_buffer.py:290-304 | a completed consecutive sample never has more indices than there are non-terminal candidates |
| PrioritisedReplay.PrioritizedReplayBuffer.constructor | cares_reinforcement_learning/memory/prioritised_replay_buffer.py:40-67 | a new buffer is empty: a fresh tree, max priority 1, beta 0.4 |
| PrioritisedReplay.PrioritizedReplayBuffer.Length | cares_reinforcement_learning/memory/prioritised_replay_buffer.py:69-76 | `len` is the current size, never above the capacity |
| PrioritisedReplay.PrioritizedReplayBuffer.Add | cares_reinforcement_learning/memory/prioritised_replay_buffer.py:78-112 | writes each field at the pointer in place, sets the leaf to `max_priority ** alpha`, advances the pointer mod capacity, and grows the size up to the capacity |
| PrioritisedReplay.PrioritizedReplayBuffer.SampleUniform | cares_reinforcement_learning/memory/prioritised_replay_buffer.py:114-136 | returns `min(batch, size)` draws below the size, with each column's fields at them |
| PrioritisedReplay.PrioritizedReplayBuffer.SamplePriority | cares_reinforcement_learning/memory/prioritised_replay_buffer.py:138-201 | returns the fields at the drawn slots and their importance weights, and anneals beta; fails on an empty batch, and on a non-empty batch from a tree whose total is 0, in both cases without changing beta |
| PrioritisedReplay.PrioritizedReplayBuffer.SampleInversePriority | cares_reinforcement_learning/memory/prioritised_replay_buffer.py:203-243 | draws only slots below the pointer; returns their fields and inverse priorities; fails when the inverse tree is empty and a sample is asked for |
| PrioritisedReplay.PrioritizedReplayBuffer.UpdatePriorities | cares_reinforcement_learning/memory/prioritised_replay_buffer.py:245-258 | raises max_priority to the batch maximum if larger and `batch_set`s the tree; an empty batch fails and changes nothing |
| PrioritisedReplay.PrioritizedReplayBuffer.Flush | cares_reinforcement_learning/memory/prioritised_replay_buffer.py:260-272 | returns each column's first `current_size` slots, then clears |
| PrioritisedReplay.PrioritizedReplayBuffer.SampleConsecutive | cares_reinforcement_learning/memory/prioritised_replay_buffer.py:274-319 | returns distinct non-terminal indices below `size - 1`, with the fields at i and i + 1; fails with `SampleLargerThanPopulation` exactly when `1 <= size <= batch`, and with `NonIntegerIndices` (the empty float index array) exactly for a batch of 0 from a non-empty buffer; its only other failure is `NotTerminated` |
| PrioritisedReplay.PrioritizedReplayBuffer.Clear | cares_reinforcement_learning/memory/prioritised_replay_buffer.py:350-362 | back to the state of a new buffer |
| Memory.Append | cares_reinforcement_learning/memory/memory_buffer.py:30 | a deque with maxlen appends on the right, and when full drops the oldest element |
| Memory.AppendAllKeepsNewest | cares_reinforcement_learning/memory/memory_buffer.py:13-30 | after any run of adds, the deque holds the newest `max_capacity` transitions in insertion order |
| Memory.ConsecutiveRows | cares_reinforcement_learning/memory/memory_buffer.py:78-86 | each row is transition i, followed by the action and the reward of transition i + 1 |
| Memory.MemoryBuffer.constructor | cares_reinforcement_learning/memory/memory_buffer.py:13-14 | a new buffer is empty |
| Memory.MemoryBuffer.Length | cares_reinforcement_learning/memory/memory_buffer.py:16-17 | `len` is the number of stored transitions, at most the capacity |
| Memory.MemoryBuffer.Add | cares_reinforcement_learning/memory/memory_buffer.py:19-30 | the transition is appended to the bounded deque |
| Memory.MemoryBuffer.Sample | cares_reinforcement_learning/memory/memory_buffer.py:32-41 | `min(batch, len)` distinct transitions, transposed so that field f, sample k is field f of the k-th pick; no columns at all when nothing is picked, as `zip(*[])` gives |
| Memory.MemoryBuffer.SampleHoldsPickedTransitions | cares_reinforcement_learning/memory/memory_buffer.py:32-41 | for equally long transitions, transposing the sample back gives exactly the picked transitions |
| Memory.MemoryBuffer.SampleConsecutive | cares_reinforcement_learning/memory/memory_buffer.py:43-87 | fails exactly on an empty buffer (`random.sample` with k = -1); otherwise returns `min(batch, len - 1)` distinct indices whose done flag is False, with the next action and reward appended, transposed |
| Memory.MemoryBuffer.Flush | cares_reinforcement_learning/memory/memory_buffer.py:89-98 | returns the stored transitions transposed, and empties the buffer |
| Memory.MemoryBuffer.Clear | cares_reinforcement_learning/memory/memory_buffer.py:100-104 | empties the buffer |
| Memory.FlushLosesNothing | cares_reinforcement_learning/memory/memory_buffer.py:89-98 | a flushed buffer of equally long transitions is recovered by transposing back |
| LongMemory.LowestReward | cares_reinforcement_learning/memory/long_memory_buffer.py:41-48 | the lowest reward is infinity exactly for no entries; otherwise it bounds every reward from below and is attained |
| LongMemory.LowestRewardOfAppend | cares_reinforcement_learning/memory/long_memory_buffer.py:34-37 | appending an entry makes the minimum the smaller of the old minimum and its reward |
| LongMemory.MinByRewardIsFirst | cares_reinforcement_learning/memory/long_memory_buffer.py:41-48 | `min(..., key=reward)` picks the first entry with the lowest reward |
| LongMemory.IndexOfMinIsFirstMin | cares_reinforcement_learning/memory/long_memory_buffer.py:41-48 | `index` of that entry is the first position holding the lowest reward |
| LongMemory.ReplacementNeverLowersMinimum | cares_reinforcement_learning/memory/long_memory_buffer.py:22-31 | replacing the lowest-reward entry with a higher-reward one never lowers the minimum |
| LongMemory.FirstReplacementHitsNewest | cares_reinforcement_learning/memory/long_memory_buffer.py:16-31 | on a just-filled buffer the first replacement overwrites the newest entry, not the lowest-reward one |
| LongMemory.LongMemoryBuffer.constructor | cares_reinforcement_learning/memory/long_memory_buffer.py:10-18 | a new buffer is empty: min reward infinity, min index -1, no replaced episode |
| LongMemory.LongMemoryBuffer.IsFull | cares_reinforcement_learning/memory/long_memory_buffer.py:50-51 | full exactly when the length reaches the capacity |
| LongMemory.LongMemoryBuffer.GetLength | cares_reinforcement_learning/memory/long_memory_buffer.py:53-54 | the number of stored entries, at most the capacity |
| LongMemory.LongMemoryBuffer.GetMinReward | cares_reinforcement_learning/memory/long_memory_buffer.py:75-82 | the lowest stored reward (infinity when empty) |
| LongMemory.LongMemoryBuffer.GetReplacedEpisodeIdReward | cares_reinforcement_learning/memory/long_memory_buffer.py:84-91 | the id and reward of the last replaced episode, or None and -1 before any replacement |
| LongMemory.LongMemoryBuffer.UpdateMinReward | cares_reinforcement_learning/memory/long_memory_buffer.py:41-48 | recomputes the lowest reward and the first index holding it |
| LongMemory.LongMemoryBuffer.Add | cares_reinforcement_learning/memory/long_memory_buffer.py:20-37 | appends while not full; when full, replaces the target entry only if the new reward exceeds the minimum, recording what it replaced |
| LongMemory.LongMemoryBuffer.SampleUniform | cares_reinforcement_learning/memory/long_memory_buffer.py:58-72 | fails when the batch exceeds the length or is 0; otherwise returns the ids and rewards of distinct entries |
| Dyna.GoalDistanceSq | cares_reinforcement_learning/algorithm/mbrl/DynaSAC_NS_IW.py:270-272 | the squared goal–object distance is non-negative |
| Dyna.RewardNonIncreasing | cares_reinforcement_learning/algorithm/mbrl/DynaSAC_NS_IW.py:274-279 | the reward never rises as the distance grows |
| Dyna.RewardFunction | cares_reinforcement_learning/algorithm/mbrl/DynaSAC_NS_IW.py:269-280 | 800 exactly when the squared distance is at most 100; 0 exactly when it is at least 4900; otherwise `70 - distance`, strictly between 0 and 60 |
| Dyna.RepeatInterleave | cares_reinforcement_learning/algorithm/mbrl/DynaSAC_NS_IW.py:228-230 | `repeat_interleave` has `rows * n` rows |
| Dyna.RepeatInterleaveAt | cares_reinforcement_learning/algorithm/mbrl/DynaSAC_NS_IW.py:228-230 | row j of `repeat_interleave(rows, n)` is input row `j / n` |
| Dyna.RolloutRowsStep | cares_reinforcement_learning/algorithm/mbrl/DynaSAC_NS_IW.py:227-230 | step k + 1 of a rollout from N states adds `N * n^(k+1)` rows, since step k leaves `N * n^k` states and each is branched n times |
| Dyna.RolloutRowsIsLayerSum | cares_reinforcement_learning/algorithm/mbrl/DynaSAC_NS_IW.py:227-261 | a rollout of h steps from N states stacks `N * n + N * n^2 + ... + N * n^h` rows |
| Dyna.CopyGoal | cares_reinforcement_learning/algorithm/mbrl/DynaSAC_NS_IW.py:241 | the predicted next state keeps its own coordinates but takes the last two from the current state |
| Dyna.RolloutStep | cares_reinforcement_learning/algorithm/mbrl/DynaSAC_NS_IW.py:228-256 | a step's states are its input states, each repeated n times in place; every next state has its state's dimension; in gripper mode every row keeps its goal and is paid a gripper reward |
| Dyna.RolloutStepRows | cares_reinforcement_learning/algorithm/mbrl/DynaSAC_NS_IW.py:228-255 | a step's actions are the actor's actions of the branched states and its weights those of the weighting; in gripper mode its rewards are `reward_function` of the prediction, taken before the goal is copied, and its next states `CopyGoal` of the prediction; otherwise its rewards are the reward model's and its next states the prediction itself |
| Dyna.StatesAfter | cares_reinforcement_learning/algorithm/mbrl/DynaSAC_NS_IW.py:226-256 | the states rollout step k branches number `N * n^k`: the start states for k = 0, otherwise the next states of step k - 1 |
| Dyna.Stacked | cares_reinforcement_learning/algorithm/mbrl/DynaSAC_NS_IW.py:250-260 | the rows the first k steps stack number `RolloutRows(N, n, k)` |
| Dyna.StackedWellFormed | cares_reinforcement_learning/algorithm/mbrl/DynaSAC_NS_IW.py:239-256 | every stacked row's next state has its state's dimension; in gripper mode every row keeps its goal and is paid a gripper reward |
| Dyna.StackedPrefix | cares_reinforcement_learning/algorithm/mbrl/DynaSAC_NS_IW.py:250-260 | later steps only append: the rows of the first k steps begin the rows of any longer rollout |
| Dyna.StackedLayer | cares_reinforcement_learning/algorithm/mbrl/DynaSAC_NS_IW.py:227-260 | in a rollout of m > k steps, rows `RolloutRows(N, n, k)` up to `RolloutRows(N, n, k + 1)`, `N * n^(k+1)` of them, are exactly the rows step k makes from the next states of step k - 1, and their next states are the input of step k + 1 |
| Dyna.StackSteps | cares_reinforcement_learning/algorithm/mbrl/DynaSAC_NS_IW.py:225-260 | the stacked tensors hold the rows of `horizon` rollout steps, `Stacked(start, horizon)`, whose layers `StackedLayer` describes; there are `N * n + ... + N * n^horizon` rows, with one done flag 0 per row |
| Dyna.Rollout | cares_reinforcement_learning/algorithm/mbrl/DynaSAC_NS_IW.py:214-263 | fails with `EmptyReduction` exactly when the horizon is 0 (`torch.vstack([])`) or the branched batch is empty (`torch.min` of an empty tensor in `sampling`); otherwise it is the non-empty stacked rollout of `StackSteps`, with one done flag 0 per row |
| Dyna.VarianceNonNegative | cares_reinforcement_learning/algorithm/mbrl/DynaSAC_NS_IW.py:319-321 | the unbiased sample variance is non-negative |
| Dyna.CovarianceSymmetric | cares_reinforcement_learning/algorithm/mbrl/DynaSAC_NS_IW.py:323-332 | the covariance does not depend on argument order |
| Dyna.AgreementMeansNoVariance | cares_reinforcement_learning/algorithm/mbrl/DynaSAC_NS_IW.py:319-342 | constant samples give total variance 0 |
| Dyna.Threshold | cares_reinforcement_learning/algorithm/mbrl/DynaSAC_NS_IW.py:344-347 | for t in [0, 1) the threshold lies at or above the smallest variance and below the largest |
| Dyna.Floor | cares_reinforcement_learning/algorithm/mbrl/DynaSAC_NS_IW.py:348 | values at or below the threshold become the threshold; the others are kept |
| Dyna.MinMaxScaleBounds | cares_reinforcement_learning/algorithm/mbrl/DynaSAC_NS_IW.py:352-355 | scaled weights lie in [0.0001, 1.0001], with both ends reached |
| Dyna.MinMaxScaleOrder | cares_reinforcement_learning/algorithm/mbrl/DynaSAC_NS_IW.py:352-355 | min-max scaling keeps order |
| Dyna.UncertaintyWeights | cares_reinforcement_learning/algorithm/mbrl/DynaSAC_NS_IW.py:343-356 | None exactly when some weight the code computes is NaN or infinite: a floored variance is 0, or all inverses are equal; otherwise the weights span [0.0001, 1.0001] |
| Dyna.SpreadVariancesGiveWeights | cares_reinforcement_learning/algorithm/mbrl/DynaSAC_NS_IW.py:343-356 | positive, not all equal variances with t in [0, 1) always give finite weights |
| Dyna.EqualVariancesGiveNoWeights | cares_reinforcement_learning/algorithm/mbrl/DynaSAC_NS_IW.py:343-356 | all-equal variances give no finite weights (0 / 0 in the scaling) |
| Dyna.LowerVarianceWeighsMore | cares_reinforcement_learning/algorithm/mbrl/DynaSAC_NS_IW.py:343-356 | a row with lower total variance never gets a lower weight |
| Dyna.Sampling | cares_reinforcement_learning/algorithm/mbrl/DynaSAC_NS_IW.py:282-356 | the weights `sampling` returns, one per row and computed from the total variance of that row's column of samples, span [0.0001, 1.0001] |
| Dyna.AgreeingSamplesGiveNoWeights | cares_reinforcement_learning/algorithm/mbrl/DynaSAC_NS_IW.py:282-356 | if every sample agrees on every row, `sampling` yields no finite weights |
| Dyna.CriticTargetBootstraps | cares_reinforcement_learning/algorithm/mbrl/DynaSAC_NS_IW.py:124 | a terminal row's target is its reward; a non-terminal row adds gamma times the target value |
| Dyna.SquaredErrors | cares_reinforcement_learning/algorithm/mbrl/DynaSAC_NS_IW.py:129-132 | every squared TD error is non-negative |
| Dyna.UnweightedCriticLoss | cares_reinforcement_learning/algorithm/mbrl/DynaSAC_NS_IW.py:112-132 | without weights, `torch.ones` makes the critic loss half the mean squared error |
| Dyna.CriticLossNonNegative | cares_reinforcement_learning/algorithm/mbrl/DynaSAC_NS_IW.py:129-132 | with non-negative weights, such as those `sampling` gives, the weighted critic loss is non-negative |

## Left out

- The sum tree's own code (levels, `sample_simple`, `sample_stratified`) is not part of this model. Only the leaf view the buffer relies on is modelled, and a descent is given as its drawn leaves.
- Random draws are given by the caller (`draws`, `rounds`, `order`). Their distribution is not modelled.
- SampleConsecutive (both buffers): the source retries forever while too few candidates qualify. The model consumes one supplied permutation per retry and returns `NotTerminated` when they run out.
- PrioritisedReplay.PrioritizedReplayBuffer.SamplePriority: the stratified and simple descents are one parameter, the drawn leaves. Its `DegenerateTree` failure on a tree whose total is 0, like that of SampleInversePriority, is assumed of the sum tree's descent, which is not part of this model. As written, the buffer would go on to divide by that zero total.
- `x ** e` is abstract; only positivity, and for RarerSlotsWeighMore monotonicity, is assumed of it.
- `torch.sqrt` is abstract, specified by `sqrt(x) >= 0` and `sqrt(x)^2 == x` for `x >= 0`.
- Floating point is modelled as exact reals. NaN and infinity are modelled as `None` in UncertaintyWeights, and as failures where the source raises.
- PrioritisedReplay.PrioritizedReplayBuffer.constructor requires a positive capacity. A zero capacity would make `% max_capacity` divide by zero on the first add.
- PrioritisedReplay.InverseLeaves: `batch_set` pairs indices with priorities by position, and after the buffer wraps there are more priorities than indices. The lengths differ there, and the sum tree's handling of that is not part of this model.
- PrioritisedReplay.PrioritizedReplayBuffer.Add requires at least five fields, which sampling reads through the done column.
- Memory.MemoryBuffer.SampleConsecutive requires every stored transition to have a done field.
- LongMemory: episode ids are integers and rewards are reals. Python's dynamic typing is not modelled.
- DynaSAC_NS_IW networks are function parameters: the actor, the critic and target critic, the world model and reward model, their training, the soft target update, and `learn_counter` scheduling in `train_policy`. The gradient steps of `_train_policy` are left out. Only its default weights, its critic target and its weighted critic loss are modelled.
- Dyna.CriticTargetBootstraps takes the target values `min(Q1, Q2) - alpha * log_pi` as given.
- Dyna.Sampling: the Normal sampling of next states, their denormalisation, and the actor and critic calls that produce the reward, log-probability and Q samples are given as inputs.
- Dyna.UncertaintyWeights: when one floored variance is 0 and the others are not, the code gives NaN in that row and 0.0001 in the others; the model gives `None` for the whole batch.
- Dyna.RolloutStep: the sampling noise of the actor, the world model and the reward model is modelled by giving each network the step number and the row number. The world model gives one coordinate at a time, so a prediction always has its state's dimension. The weighting of a rollout step is an abstract function of the branched states; it is not tied to `Sampling`, whose inputs come from networks.
- Dyna.RolloutStepRows requires, in gripper mode, that `sqrt` is a square root; the rollout itself needs nothing of it.
- Dyna.Rollout: `torch.vstack` of the list of per-step tensors is modelled as appending each step's rows. Its `EmptyReduction` error stands for the RuntimeError of `torch.vstack([])` at horizon 0 and of `torch.min` on an empty branched batch.
- Dyna.Rollout requires, in gripper mode, at least four coordinates per state (`WideEnough`). `reward_function` slices `[:, -4:-2]` and `[:, -2:]` without a check, so the code would also run on narrower states, with shorter slices and broadcasting; the model does not cover such states.
- Dyna.Sampling requires `rows > 0`, and Dyna.UncertaintyWeights requires a non-empty batch. An empty batch would make `torch.min` raise there; that raise is modelled by Dyna.Rollout's `EmptyReduction` error, since the rollout is the only caller.
- `get_statistics`, saving and loading, plotting, and all I/O are left out.
