# dqn-pytorch: the bookkeeping of the training loop, in Dafny

This project models the discrete bookkeeping of `dqn.py` and proves what it
promises. That code trains a Deep Q-Network agent on a Pygame game. The
networks, the optimiser and the simulator are float arithmetic inside torch,
gym and cv2, so they are not modelled. What is modelled:

- **`ReplayMemory`** (`replay.dfy`, class `Replay.ReplayMemory`).
  - A `deque(maxlen=capacity)` of transitions. A ghost history records every transition ever put.
  - `put` evicts the oldest transition when the memory is full.
  - `size` returns the number stored.
  - `sample(k)` draws `k` transitions from `k` distinct positions. Which free position each draw takes is left open (a nondeterministic choice). Asking for more than are stored is the error `random.sample` raises; asking for none is the error of building a `Transition` from no fields.
  - `is_available` is modelled as the `_available` latch.
- **`deque(maxlen=n)`** itself (`deques.dfy`, module `Deques`), as functions on sequences. It is used by the replay memory, the frame buffer and `_play_steps`.
- **The agent's frame buffer and training loop** (`training.dfy`, class `Training.Agent`).
  - `get_initial_states`, `add_state` and `recent_states`.
  - The nested loops of `train`:
    - every decision repeats its action up to `frame_skipping` times;
    - every decision stores one transition, the terminal one included;
    - the agent optimises when the memory is available;
    - the loop breaks on `done` before counting the step;
    - a target update comes every 500 steps and a checkpoint every 5000 steps;
    - each episode's `play_steps` goes into `_play_steps`.
  - The environment is a script. An episode is:
    - the screen after the reset;
    - the ticks `env.step` answers with (screen, reward, `done`), up to the first `done`;
    - the action `select_action` returns at each decision.
  - Frames, actions and rewards are opaque type parameters.
  - Optimising, updating the target network and saving a checkpoint are recorded in an event log (`Optimized`, `TargetUpdated(step)`, `CheckpointSaved(step)`). Their numeric effect is not modelled.
- **Latest-checkpoint selection** (`checkpoints.dfy`, module `Checkpoints`), as pure functions. It covers:
  - the name `save_checkpoint` is given;
  - the parse of the step out of a name by `checkpoint_(?P<number>\d+)\.pth\.tar$`, where `$` also matches before a final newline;
  - the sort by step, as an insertion sort that puts each entry after the equal steps already placed, and the choice of the last entry. Of the stability of Python's sort, only its consequence for the last entry is proved (`Checkpoints.SortedLast`);
  - the failure when a name does not match.
  The list of names is an input, in place of `glob`.

Three behaviours of the code that the model makes explicit:

- **Ties between checkpoint steps.** `load_latest_checkpoint` sorts stably by step and takes the last entry, so among equal steps the last name in the list returned by `glob` is loaded (`Checkpoints.SelectLatestIsNewest`).
- **A name that matches the glob but not the pattern.** For a name such as `dqn_checkpoints/checkpoint_x.pth.tar`, `r.search` returns `None` and `.group` raises `AttributeError`. The model makes this the error result `NoMatch` (`Checkpoints.SelectLatestFails`).
- **The availability latch.** `is_available` tests the current length of the memory, not the number of transitions ever put. That length is capped at the capacity, so a memory of capacity at most 16 never becomes available (`Replay.ReplayMemory.IsAvailable`).

## Model

| member | source | states |
|---|---|---|
| Deques.LastN | dqn.py:46 | the items a `deque(maxlen=n)` keeps of a history have length `min(len, n)` |
| Deques.Append | dqn.py:60 | `append` on a deque of at most `n` items leaves `min(len + 1, n)` items |
| Deques.AppendKeepsNewest | dqn.py:60 | `append` keeps the last `n` items of the extended sequence; the new item is rightmost; the old items stay in order when there was room; only the leftmost one goes when the deque was full |
| Deques.Repeat | dqn.py:218-219 | `n` copies of one item: length `n`, every entry that item |
| Deques.AppendToWindow | dqn.py:46 | appending to the last-`n` window of a history gives the window of the extended history, so the deque always holds the most recent `n` items in insertion order |
| Replay.FreePosition | dqn.py:63 | while fewer than `n` distinct positions below `n` have been drawn, a position below `n` is still free, so drawing without replacement never gets stuck |
| Replay.ReplayMemory.constructor | dqn.py:44-48 | a new memory is empty, its latch is clear, and it has the given capacity |
| Replay.ReplayMemory.Put | dqn.py:50-60 | the transition is appended to the history; the memory becomes the deque append of its old contents, of size `min(old size + 1, capacity)`; the memory is always the last `capacity` transitions ever put; the latch does not change |
| Replay.ReplayMemory.Size | dqn.py:66-67 | the size is the number stored, never more than the capacity, and equal to `min(number ever put, capacity)` |
| Replay.ReplayMemory.IsAvailable | dqn.py:69-75 | the answer is the latch after the call: set if it was set or more than 16 are stored, never cleared; with capacity above 16 it is true exactly once more than 16 have been put; with capacity at most 16 it is never true |
| Replay.ReplayMemory.Sample | dqn.py:62-64 | asking for more than are stored is the `ValueError` result, and only that; asking for none is the `TypeError` result, and only that; otherwise, exactly when `0 < k <= size`, `k` positions, all distinct and within the memory, and the transitions at them |
| Replay.EvictionScenario | dqn.py:46-60 | a memory of capacity 3 given five transitions keeps exactly the last three, in order |
| Replay.PutAndPoll | dqn.py:69-75 | polling `is_available` after each put is false for the first 16 puts and true from the 17th on, when the capacity allows more than 16 |
| Training.TargetUpdateStepIsMod | dqn.py:274 | a step is due a target update exactly when it is a multiple of 500 |
| Training.CheckpointStepIsMod | dqn.py:279 | a step is due a checkpoint exactly when it is a multiple of 5000 |
| Training.CheckpointIsTargetUpdateStep | dqn.py:274-281 | every checkpoint step is also a target-update step |
| Training.PlayLength | dqn.py:241-271 | the number of counted decisions of an episode of `n` ticks: the last decision starts before tick `n`, and tick `n` falls within its `frame_skipping` ticks |
| Training.DecisionBounds | dqn.py:245-266 | a decision that starts inside the episode has an action and is at most the last one; it is the last one exactly when its repeats reach the end of the episode |
| Training.Decision | dqn.py:245-256 | decision `j` has an action and stores it; both windows have `action_repeat` frames; a decision before the last ends where the next one starts, so its next state is the next decision's state; the last one ends at the end of the episode, with the reward of the `done` tick |
| Training.Window | dqn.py:222-223 | the frame buffer after each pushed screen has `action_repeat` frames |
| Training.WindowIsLastFrames | dqn.py:217-226 | the frame buffer holds the last `action_repeat` frames seen since the reset; the copies of the first screen count as the oldest |
| Training.Decisions | dqn.py:256 | the transitions of the first `j` decisions number `j` |
| Training.DecisionsAt | dqn.py:255-256 | transition `i` of that list is the one decision `i` stores: the frames before its ticks, its action, the reward of its last tick, and the frames after |
| Training.AvailableAfter | dqn.py:69-75 | the latch after `n` puts of an episode stays set once set, and is set only when it was already or the stored count then exceeds 16 |
| Training.AvailableAfterCount | dqn.py:262 | after `n` puts in an episode, the latch is set exactly when it was set before, or `n > 0` and the stored count then exceeds 16 |
| Training.StepEvents | dqn.py:273-281 | a step logs a target update exactly when it is due one and a checkpoint exactly when it is due one; at a checkpoint step both are logged, the target update first |
| Training.CountedSteps | dqn.py:266-271 | the steps the first `j` decisions count are the next `min(j, play_steps)` steps |
| Training.LoggedTargetUpdates | dqn.py:273-276 | a target update at step `s` is logged by the first `j` decisions exactly when one of them counts `s` and `s` is due one |
| Training.LoggedCheckpoints | dqn.py:278-281 | a checkpoint at step `s` is logged by the first `j` decisions exactly when one of them counts `s` and `s` is due one |
| Training.EpisodeTargetUpdates | dqn.py:266-276 | the first `j` decisions log a target update exactly at the multiples of 500 among the steps they count |
| Training.EpisodeCheckpoints | dqn.py:266-281 | the first `j` decisions log a checkpoint exactly at the multiples of 5000 among the steps they count |
| Training.EpisodeEventSteps | dqn.py:266-281 | both of the above, for any step `s`, in both directions |
| Training.DueCounted | dqn.py:238-281 | a flag is raised after `j` decisions exactly when some counted step is due the flag's event |
| Training.DueFlags | dqn.py:238-281 | `target_update_flag` and `checkpoint_flag` say exactly whether the episode's events hold a target update and a checkpoint |
| Training.EpisodesDecisions | dqn.py:236-283 | the transitions the first `i` episodes store, episode after episode: their `play_steps` summed, plus one per episode |
| Training.HistoryNext | dqn.py:256 | one more episode appends its transitions to those of the episodes before it |
| Training.PlayLengths | dqn.py:283 | there is one `play_steps` per episode played |
| Training.StoredAfterDecisions | dqn.py:256 | during an episode, the memory's history is what it held before, followed by one transition per decision so far |
| Training.LogAfterEvents | dqn.py:262-281 | during an episode, the log is what it held before, followed by the events of the decisions so far |
| Training.EpisodeOutcome | dqn.py:241-281 | at the end of an episode of `p` counted decisions, the history has gained its `p + 1` transitions and the log its events; the flags say whether those events hold a target update and a checkpoint; the latch is set exactly when it was before or more than 16 are then stored, and the episode optimised exactly when the latch is set |
| Training.DecisionOptimizes | dqn.py:256-264 | a decision logs an optimisation exactly when the latch is set after its put |
| Training.EpisodeOptimizes | dqn.py:241-264 | the first `j` decisions log an optimisation exactly when `j > 0` and the latch is set after their puts |
| Training.EpisodeLogsDueSteps | dqn.py:270-281 | an episode of `p` counted decisions logs, among all steps, a target update exactly at the due steps of the `p` it counts, and a checkpoint likewise |
| Training.DueStepsConcat | dqn.py:235-281 | the due events of two consecutive stretches of steps make up those of the whole stretch |
| Training.EpisodeExtendsLog | dqn.py:235-281 | appending one episode's events keeps the log up to date with the due events of every step counted so far |
| Training.PlayLengthsSum | dqn.py:270-283 | one more episode adds its `play_steps` to the total step count |
| Training.NoDecisions | dqn.py:236-240 | before its first decision, an episode has stored, logged and flagged nothing of its own |
| Training.HistoryStep | dqn.py:256 | storing a decision's transition gives the history after one more decision |
| Training.MemoryStep | dqn.py:256-262 | one more put leaves the memory size and latch as they are after one more put of the episode |
| Training.LogStep | dqn.py:262-281 | what a decision appends to the log gives the log after one more decision, the step's events only when it did not end the episode |
| Training.FlagsStep | dqn.py:273-281 | the flags after a decision are those due after one more decision |
| Training.DecisionKeepsPlayed | dqn.py:241-281 | one decision takes the state after `j` decisions (history, memory size, latch, log, flags) to the state after `j + 1` |
| Training.Agent.constructor | dqn.py:159-183 | given `action_repeat > 0`, a new agent has an empty frame buffer, step 0, no recorded episodes, an empty log and a fresh, empty memory of capacity 20000 |
| Training.Agent.GetInitialStates | dqn.py:212-220 | the buffer is refilled with `action_repeat` copies of the screen after the reset, and those frames are returned |
| Training.Agent.AddState | dqn.py:222-223 | the screen is pushed as the newest frame, and a full buffer drops its oldest |
| Training.Agent.RecentStates | dqn.py:225-226 | the frames of the buffer, oldest first |
| Training.Agent.RepeatAction | dqn.py:245-252 | the action is applied up to `frame_skipping` times, stopping at `done`; it ends at the end of the episode exactly when the last tick is `done`; the buffer then holds the frames up to that tick |
| Training.Agent.StoreAndOptimize | dqn.py:256-264 | exactly one transition is stored; the latch is updated; one optimisation is logged exactly when the memory is available, and its draw of 16 never fails |
| Training.Agent.AdvanceStep | dqn.py:269-281 | the step goes up by one; a target update and a checkpoint are logged and flagged exactly when due at the new step |
| Training.Agent.Act | dqn.py:242-264 | one decision before the step count: it stores the transition of decision `j`, optimises when available, and reports `done` exactly at the last decision |
| Training.Agent.Decide | dqn.py:241-281 | one turn of the inner loop: the state after `j` decisions becomes the state after `j + 1`; the step counts up only when the episode did not end |
| Training.Agent.RecordPlaySteps | dqn.py:283 | `play_steps` is appended to `_play_steps` (at most 5 kept) and to the ghost list of all episode lengths |
| Training.Agent.PlayEpisode | dqn.py:241-281 | the inner loop plays the episode to its end: `play_steps` counted decisions, the step up by as many, one transition per decision, the memory size and the latch as after `play_steps + 1` puts, the episode's events logged, and the flags as due |
| Training.Agent.TrainEpisode | dqn.py:236-283 | one pass of the outer loop: the step grows by `play_steps`; `play_steps` is recorded; the history gains the episode's `play_steps + 1` transitions; the latch is set exactly when it was before or more than 16 are stored, so once set it stays set; the log gains its events, which hold an optimisation exactly when the latch is set; the flags say whether they hold a target update and a checkpoint |
| Training.Agent.Train | dqn.py:235-283 | over a list of episodes: the step grows by the sum of their `play_steps`, each of which is recorded; `_play_steps` keeps the last 5; the history gains the transitions of every episode, in order, the counted decisions plus one terminal transition each; the latch ends set exactly when it was set before or some episode was played and more than 16 are stored; the old log is kept; a target update is logged exactly at each multiple of 500 reached, and a checkpoint exactly at each multiple of 5000; an optimisation is logged exactly when some episode was played and the latch ends set |
| Training.Agent.TrainNext | dqn.py:236-283 | one pass of the outer loop keeps what `Train` states about the episodes played so far, the history's contents, the latch and the optimisations included |
| Training.FreshAgentOptimizes | dqn.py:235-283 | a fresh agent with the default settings, trained on a list of episodes, optimises at least once exactly when they store more than 16 transitions between them |
| Training.FirstActionDoneScenario | dqn.py:236-283 | an episode done on its first action stores exactly one transition, leaves the step at 0, records `play_steps == 0`, and logs nothing |
| Checkpoints.Value | dqn.py:347 | `int` of `n` digits is below `10^n`, and at least `10^(n-1)` when the first digit is not zero |
| Checkpoints.Decimal | dqn.py:280 | `str(step)`: decimal digits without leading zeros, whose value is the step |
| Checkpoints.SaveName | dqn.py:280 | the name saved lies in `dqn_checkpoints/`, starts with `checkpoint_`, has only digits between that and `.pth.tar`, and ends with `.pth.tar`, so it is one of the names the `glob` of dqn.py:345 finds |
| Checkpoints.SaveNameRoundTrip | dqn.py:280 | the name a checkpoint is saved under parses back to its step |
| Checkpoints.LineOfMatch | dqn.py:344 | `$` matches at the end of the name or before a final newline |
| Checkpoints.ParseStep | dqn.py:344-347 | a name parses only if its line ends with `.pth.tar` and is longer than `checkpoint_.pth.tar` |
| Checkpoints.ParseStepComplete | dqn.py:344 | every name of the form text, `checkpoint_`, digits, `.pth.tar`, optional newline parses to the value of its digits |
| Checkpoints.ParseStepSound | dqn.py:344 | every name that parses has that form and parses to the value of its digits |
| Checkpoints.ParseAll | dqn.py:347 | each name becomes `[step, name]`, in order, exactly when every name parses; otherwise the result names the first name that does not |
| Checkpoints.Insert | dqn.py:348 | inserting one entry adds one to the length |
| Checkpoints.InsertPermutes | dqn.py:348 | inserting adds exactly the new entry |
| Checkpoints.InsertSorted | dqn.py:348 | inserting into a sorted sequence keeps it sorted |
| Checkpoints.SortBySteps | dqn.py:348 | the sort by step keeps the length and is sorted |
| Checkpoints.SortByStepsPermutes | dqn.py:348 | the sort is a permutation of its input |
| Checkpoints.LatestIndex | dqn.py:348-349 | the position of a largest step, with no larger step after it and no equal one either |
| Checkpoints.SortedLast | dqn.py:348-349 | the last entry of the sort is the last entry of largest step in input order |
| Checkpoints.LastSorted | dqn.py:348-349 | `sorted(...)[-1]` is the last entry of largest step |
| Checkpoints.SelectLatest | dqn.py:346-353 | nothing is loaded exactly when the list is empty |
| Checkpoints.SelectLatestIsNewest | dqn.py:346-350 | when every name parses, the file loaded has the largest step, and no later name has that step |
| Checkpoints.SelectLatestFails | dqn.py:347 | a name that does not parse makes the selection fail, at a name no later than it that does not parse |
| Checkpoints.SaveNames | dqn.py:280 | the names of checkpoints saved at given steps, in order |
| Checkpoints.LatestOfSaved | dqn.py:343-350 | whatever order `glob` lists the saved checkpoints in, the one loaded is the one saved at a largest step |

## Left out

- The networks, `optimize`, `_target_update` and all of torch: float numerics inside a foreign library. An optimisation, a target update and a checkpoint are events in the log, not computations.
- `select_action` and the epsilon schedule: `math.exp`, `random()` and a network forward pass. The action at each decision is part of the episode script.
- The environment (`gym`, `cv2`, rendering, preprocessing): the episode script stands in for what `reset`, `step` and `get_screen` return.
- `save_checkpoint`, `load_checkpoint`, `torch.save`, `torch.load` and `glob`: file I/O. The model produces the name saved and chooses the name loaded; `glob`'s result is an input list of names.
- `play`, `imshow`, `_sum_params`, `main`, argparse, and the log printing with `np.mean` of the losses and the `play_step` average: user interface and command-line glue. The running values `reward_sum`, `q_mean` and `target_mean` are float outputs of `optimize`.
- Frames, actions and rewards are opaque; the tensors `put` converts them to are not modelled.
- Checkpoints.ParseStep: `\d` is treated as ASCII `0`-`9`; in Python 3 it also matches other Unicode decimal digits.
- Replay.ReplayMemory.Sample: says which transitions a draw can return, not that the draw is uniform. It returns the drawn transitions as a list; the source regroups them, by `zip`, into one `Transition` whose four fields are tuples (the states, the actions, the rewards and the next states of the batch), which is not modelled.
- Training.Agent.Train: models the outer `while True` over a finite list of episodes; the source loops forever.
- Training.Agent.TrainEpisode: requires `frame_skipping > 0`; the source with `frame_skipping == 0` never runs the `for` loop of dqn.py:245, so it never assigns `reward` or `done`, and the `put` of dqn.py:256 fails with `UnboundLocalError` for `reward`. It also requires an episode that reaches `done` (`Episode.Playable`, `EndsAtFirstDone`): for an environment that never reports `done`, the inner `while True` of dqn.py:241-281 never returns, and the model does not cover that run.
- Replay.ReplayMemory.constructor: accepts any capacity, zero included; a memory of capacity 0 stays empty, as `deque(maxlen=0)` does.
- Training.Agent.GetInitialStates: the agent requires `action_repeat > 0` (constructor and `Valid`); with `action_repeat == 0` the source's `np.stack` of an empty list (dqn.py:215) raises `ValueError` at the first reset, and that failure is not modelled.
