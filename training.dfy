/**
 * The agent's bookkeeping during training: the sliding window of recent
 * frames, the step counter, the lengths of recent episodes, and the order
 * in which one pass of the training loop stores a transition, optimises,
 * updates the target network and saves a checkpoint.
 *
 * The environment is a script. An episode is the first screen after the
 * reset, the ticks the simulator answers `env.step` with (screen, reward,
 * done) up to and including the first `done`, and the action
 * `select_action` returns at each decision. Frames, actions and rewards are
 * opaque. What optimising, updating the target network and saving a
 * checkpoint do to the networks is left out; the agent keeps a log of when
 * they happen.
 */
module Training {
  import opened Deques
  import opened Replay

  /** `k` divides `s`: counting down from `s` in steps of `k` reaches 0. */
  predicate Divides(k: nat, s: nat)
    requires k > 0
    decreases s
  {
    s == 0 || (s >= k && Divides(k, s - k))
  }

  /** `self.step % TARGET_UPDATE_INTERVAL == 0`, with `TARGET_UPDATE_INTERVAL == 500`. */
  predicate TargetUpdateStep(s: nat)
  {
    Divides(500, s)
  }

  /** `self.step % CHECKPOINT_INTERVAL == 0`, with `CHECKPOINT_INTERVAL == 5000`. */
  predicate CheckpointStep(s: nat)
  {
    Divides(5000, s)
  }

  lemma {:induction false} TargetUpdateStepIsMod(s: nat)
    ensures TargetUpdateStep(s) <==> s % 500 == 0
    decreases s
  {
    if s >= 500 {
      TargetUpdateStepIsMod(s - 500);
    }
  }

  lemma {:induction false} CheckpointStepIsMod(s: nat)
    ensures CheckpointStep(s) <==> s % 5000 == 0
    decreases s
  {
    if s >= 5000 {
      CheckpointStepIsMod(s - 5000);
    }
  }

  /** `self._play_steps = deque(maxlen=5)` */
  const PLAY_HISTORY: nat := 5
  const DEFAULT_ACTION_REPEAT: nat := 4
  const DEFAULT_FRAME_SKIPPING: nat := 4

  /** What the simulator answers one `env.step` with, and the screen rendered after it. */
  datatype Tick<F, R> = Tick(screen: F, reward: R, done: bool)

  datatype Transition<F, A, R> = Transition(state: seq<F>, action: A, reward: R, nextState: seq<F>)

  /** The side effects of the loop that the model records. */
  datatype Event = Optimized | TargetUpdated(step: nat) | CheckpointSaved(step: nat)

  /** The ticks end at the first one that reports `done`. */
  predicate EndsAtFirstDone<F, R>(ticks: seq<Tick<F, R>>)
  {
    |ticks| > 0 && ticks[|ticks| - 1].done &&
    forall i :: 0 <= i < |ticks| - 1 ==> !ticks[i].done
  }

  datatype Episode<F, A, R> = Episode(first: F, ticks: seq<Tick<F, R>>, actions: seq<A>)
  {
    /** A script the loop can play with `fs` repeats per action: it ends, and there is an action for every decision. */
    predicate Playable(fs: nat)
    {
      fs > 0 && EndsAtFirstDone(ticks) && |ticks| <= DecisionStart(|actions|, fs)
    }
  }

  /**
   * The index of the first tick of decision `j` when every decision before
   * it repeats its action `fs` times: `j * fs`, counted up so that the
   * proofs below stay linear.
   */
  function DecisionStart(j: nat, fs: nat): nat
  {
    if j == 0 then 0 else DecisionStart(j - 1, fs) + fs
  }

  lemma {:induction false} DecisionStartIsProduct(j: nat, fs: nat)
    ensures DecisionStart(j, fs) == j * fs
  {
    if j > 0 {
      DecisionStartIsProduct(j - 1, fs);
      assert j * fs == (j - 1) * fs + fs;
    }
  }

  /** Later decisions start later, by at least `fs` ticks per decision in between. */
  lemma {:induction false} DecisionStartOrder(a: nat, b: nat, fs: nat)
    ensures a <= b ==> DecisionStart(a, fs) <= DecisionStart(b, fs)
    ensures a < b ==> DecisionStart(a, fs) + fs <= DecisionStart(b, fs)
    decreases b
  {
    if a < b {
      DecisionStartOrder(a, b - 1, fs);
    }
  }

  /**
   * The `play_steps` of an episode of `n` ticks with `fs` repeats per
   * action: every decision but the last takes `fs` ticks, the last takes
   * the rest.
   */
  function PlayLength(n: nat, fs: nat): (p: nat)
    requires n > 0 && fs > 0
    ensures DecisionStart(p, fs) < n <= DecisionStart(p, fs) + fs
  {
    var p := (n - 1) / fs;
    DecisionStartIsProduct(p, fs);
    assert p * fs <= n - 1 < p * fs + fs;
    p
  }

  /** The bounds decide which decision is the last one, and that it has an action. */
  lemma DecisionBounds<F, A, R>(e: Episode<F, A, R>, fs: nat, j: nat)
    requires e.Playable(fs) && DecisionStart(j, fs) < |e.ticks|
    ensures j <= PlayLength(|e.ticks|, fs)
    ensures j < |e.actions|
    ensures |e.ticks| <= DecisionStart(j, fs) + fs ==> j == PlayLength(|e.ticks|, fs)
    ensures DecisionStart(j, fs) + fs < |e.ticks| ==> j < PlayLength(|e.ticks|, fs)
  {
    var p := PlayLength(|e.ticks|, fs);
    DecisionStartOrder(p, j, fs);
    DecisionStartOrder(j, p, fs);
    DecisionStartOrder(|e.actions|, j, fs);
    DecisionStartOrder(p, j + 1, fs);
  }

  /** The screens of the first `m` ticks, in order. */
  function FirstScreens<F, R>(ticks: seq<Tick<F, R>>, m: nat): (r: seq<F>)
    requires m <= |ticks|
    ensures |r| == m
  {
    if m == 0 then [] else FirstScreens(ticks, m - 1) + [ticks[m - 1].screen]
  }

  /**
   * The frame buffer after the first `m` ticks of an episode: `ar` copies
   * of the first screen, then the screen of each tick pushed in turn.
   */
  function Window<F, R>(first: F, ticks: seq<Tick<F, R>>, ar: nat, m: nat): (w: seq<F>)
    requires m <= |ticks|
    ensures |w| == ar
  {
    if m == 0 then Repeat(first, ar) else Append(Window(first, ticks, ar, m - 1), ticks[m - 1].screen, ar)
  }

  /**
   * The buffer holds the last `ar` frames seen since the reset, the copies
   * of the first screen counting as the oldest.
   */
  lemma {:induction false} WindowIsLastFrames<F, R>(first: F, ticks: seq<Tick<F, R>>, ar: nat, m: nat)
    requires m <= |ticks|
    ensures Window(first, ticks, ar, m) == LastN(Repeat(first, ar) + FirstScreens(ticks, m), ar)
  {
    if m == 0 {
      assert Repeat(first, ar) + FirstScreens(ticks, 0) == Repeat(first, ar);
    } else {
      WindowIsLastFrames(first, ticks, ar, m - 1);
      var frames := Repeat(first, ar) + FirstScreens(ticks, m - 1);
      AppendToWindow(frames, ticks[m - 1].screen, ar);
      assert frames + [ticks[m - 1].screen] == Repeat(first, ar) + FirstScreens(ticks, m);
    }
  }

  /**
   * The transition stored at decision `j` of an episode: the window before
   * its first tick, its action, the reward of its last tick, and the window
   * after its last tick. Decision `j` covers ticks `j * fs` up to
   * `(j + 1) * fs`, or up to the end of the episode.
   */
  function Decision<F, A, R>(e: Episode<F, A, R>, ar: nat, fs: nat, j: nat): (r: Transition<F, A, R>)
    requires e.Playable(fs) && j <= PlayLength(|e.ticks|, fs)
    ensures j < |e.actions| && r.action == e.actions[j]
    ensures |r.state| == ar && |r.nextState| == ar
    ensures j < PlayLength(|e.ticks|, fs) ==>
      DecisionStart(j + 1, fs) < |e.ticks| && r.nextState == Window(e.first, e.ticks, ar, DecisionStart(j + 1, fs))
    ensures j == PlayLength(|e.ticks|, fs) ==>
      r.nextState == Window(e.first, e.ticks, ar, |e.ticks|) && r.reward == e.ticks[|e.ticks| - 1].reward
  {
    DecisionStartOrder(j, PlayLength(|e.ticks|, fs), fs);
    DecisionBounds(e, fs, j);
    var start := DecisionStart(j, fs);
    var end := Min(start + fs, |e.ticks|);
    Transition(Window(e.first, e.ticks, ar, start), e.actions[j], e.ticks[end - 1].reward, Window(e.first, e.ticks, ar, end))
  }

  /** The transitions of the first `j` decisions of an episode, in order. */
  function Decisions<F, A, R>(e: Episode<F, A, R>, ar: nat, fs: nat, j: nat): (r: seq<Transition<F, A, R>>)
    requires e.Playable(fs) && j <= PlayLength(|e.ticks|, fs) + 1
    ensures |r| == j
  {
    if j == 0 then [] else Decisions(e, ar, fs, j - 1) + [Decision(e, ar, fs, j - 1)]
  }

  /** Transition `i` of the list is the one decision `i` stores. */
  lemma {:induction false} DecisionsAt<F, A, R>(e: Episode<F, A, R>, ar: nat, fs: nat, j: nat, i: nat)
    requires e.Playable(fs) && j <= PlayLength(|e.ticks|, fs) + 1 && i < j
    ensures Decisions(e, ar, fs, j)[i] == Decision(e, ar, fs, i)
  {
    if i < j - 1 {
      DecisionsAt(e, ar, fs, j - 1, i);
    }
  }

  /** The replay memory and counters as an episode finds them. */
  datatype Counters = Counters(step: nat, available: bool, stored: nat, capacity: nat)

  /** A target update and a checkpoint, as due at step `s`. */
  function StepEvents(s: nat): (r: seq<Event>)
    ensures TargetUpdated(s) in r <==> TargetUpdateStep(s)
    ensures CheckpointSaved(s) in r <==> CheckpointStep(s)
    ensures CheckpointStep(s) ==> r == [TargetUpdated(s), CheckpointSaved(s)]
  {
    var r := (if TargetUpdateStep(s) then [TargetUpdated(s)] else []) +
      (if CheckpointStep(s) then [CheckpointSaved(s)] else []);
    if CheckpointStep(s) then (CheckpointIsTargetUpdateStep(s); r) else r
  }

  /**
   * What decision `i` of an episode with `p` play steps logs: an
   * optimisation when the memory is available after its put, then, unless
   * it ended the episode, the events due at its incremented step.
   */
  function DecisionEvents(c: Counters, p: nat, i: nat): seq<Event>
  {
    OptimizeEvents(c, i) + (if i < p then StepEvents(c.step + i + 1) else [])
  }

  /** The optimisation after the put of decision `i`, if the memory is available then. */
  function OptimizeEvents(c: Counters, i: nat): seq<Event>
  {
    if AvailableAfter(c, i + 1) then [Optimized] else []
  }

  /**
   * The `_available` latch after the first `n` puts of the episode: set by
   * the first `is_available` that sees more than `BATCH_SIZE` stored, and
   * never cleared.
   */
  function AvailableAfter(c: Counters, n: nat): (b: bool)
    ensures c.available ==> b
    ensures b ==> c.available || Min(c.stored + n, c.capacity) > BATCH_SIZE
  {
    if n == 0 then c.available else AvailableAfter(c, n - 1) || Min(c.stored + n, c.capacity) > BATCH_SIZE
  }

  /** One more put leaves `Min(stored + j + 1, capacity)` transitions in the memory. */
  lemma StoredCount(c: Counters, j: nat, stored: nat)
    requires stored == Min(c.stored + j, c.capacity)
    ensures Min(stored + 1, c.capacity) == Min(c.stored + j + 1, c.capacity)
    ensures AvailableAfter(c, j + 1) == (AvailableAfter(c, j) || Min(stored + 1, c.capacity) > BATCH_SIZE)
  {
  }

  /**
   * Since the stored count never drops, the latch is set after `n` puts
   * exactly when it was set before them or the count then exceeds `BATCH_SIZE`.
   */
  lemma {:induction false} AvailableAfterCount(c: Counters, n: nat)
    ensures AvailableAfter(c, n) <==> c.available || (n > 0 && Min(c.stored + n, c.capacity) > BATCH_SIZE)
  {
    if n > 0 {
      AvailableAfterCount(c, n - 1);
    }
  }

  /** What the first `j` decisions of the episode log. */
  function EpisodeEvents(c: Counters, p: nat, j: nat): seq<Event>
  {
    if j == 0 then [] else EpisodeEvents(c, p, j - 1) + DecisionEvents(c, p, j - 1)
  }

  /**
   * The first `j` decisions optimise at least once exactly when the latch
   * is set after their puts: an optimisation follows every put that finds
   * the latch set, and the latch is never cleared.
   */
  lemma {:induction false} EpisodeOptimizes(c: Counters, p: nat, j: nat)
    ensures Optimized in EpisodeEvents(c, p, j) <==> j > 0 && AvailableAfter(c, j)
  {
    if j > 0 {
      EpisodeOptimizes(c, p, j - 1);
      DecisionOptimizes(c, p, j - 1);
      InConcat(Optimized, EpisodeEvents(c, p, j - 1), DecisionEvents(c, p, j - 1));
    }
  }

  /** Decision `i` optimises exactly when the latch is set after its put; its step events are no optimisation. */
  lemma DecisionOptimizes(c: Counters, p: nat, i: nat)
    ensures Optimized in DecisionEvents(c, p, i) <==> AvailableAfter(c, i + 1)
  {
    var steps := if i < p then StepEvents(c.step + i + 1) else [];
    assert forall k :: 0 <= k < |steps| ==> steps[k] != Optimized;
    InConcat(Optimized, OptimizeEvents(c, i), steps);
  }

  /**
   * The first `j` decisions update the target network exactly at the
   * target-update steps, and save a checkpoint exactly at the checkpoint
   * steps, among the steps they reach.
   */
  lemma {:induction false} EpisodeEventSteps(c: Counters, p: nat, j: nat, s: nat)
    ensures TargetUpdated(s) in EpisodeEvents(c, p, j) <==> c.step < s <= c.step + Min(j, p) && TargetUpdateStep(s)
    ensures CheckpointSaved(s) in EpisodeEvents(c, p, j) <==> c.step < s <= c.step + Min(j, p) && CheckpointStep(s)
  {
    EpisodeTargetUpdates(c, p, j, s);
    EpisodeCheckpoints(c, p, j, s);
  }

  /** The target updates the first `j` decisions log. */
  lemma {:induction false} EpisodeTargetUpdates(c: Counters, p: nat, j: nat, s: nat)
    ensures TargetUpdated(s) in EpisodeEvents(c, p, j) <==> c.step < s <= c.step + Min(j, p) && TargetUpdateStep(s)
  {
    LoggedTargetUpdates(c, p, j, s);
    CountedSteps(c, p, j, s);
  }

  /** The checkpoints the first `j` decisions log. */
  lemma {:induction false} EpisodeCheckpoints(c: Counters, p: nat, j: nat, s: nat)
    ensures CheckpointSaved(s) in EpisodeEvents(c, p, j) <==> c.step < s <= c.step + Min(j, p) && CheckpointStep(s)
  {
    LoggedCheckpoints(c, p, j, s);
    CountedSteps(c, p, j, s);
  }

  /** Some decision among the first `j` counts step `s`. */
  predicate Counted(c: Counters, p: nat, j: nat, s: nat)
  {
    j > 0 && (Counted(c, p, j - 1, s) || (j - 1 < p && s == c.step + j))
  }

  /** The steps the first `j` decisions count are the `Min(j, p)` that follow the start. */
  lemma {:induction false} CountedSteps(c: Counters, p: nat, j: nat, s: nat)
    ensures Counted(c, p, j, s) <==> c.step < s <= c.step + Min(j, p)
  {
    if j > 0 {
      CountedSteps(c, p, j - 1, s);
    }
  }

  /** A target update is logged among the first `j` decisions exactly when one of them counts its step and it is due. */
  lemma {:induction false} LoggedTargetUpdates(c: Counters, p: nat, j: nat, s: nat)
    ensures TargetUpdated(s) in EpisodeEvents(c, p, j) <==> Counted(c, p, j, s) && TargetUpdateStep(s)
  {
    if j > 0 {
      LoggedTargetUpdates(c, p, j - 1, s);
      DecisionEventSteps(c, p, j, s);
      InConcat(TargetUpdated(s), EpisodeEvents(c, p, j - 1), DecisionEvents(c, p, j - 1));
    }
  }

  /** A checkpoint is logged among the first `j` decisions exactly when one of them counts its step and it is due. */
  lemma {:induction false} LoggedCheckpoints(c: Counters, p: nat, j: nat, s: nat)
    ensures CheckpointSaved(s) in EpisodeEvents(c, p, j) <==> Counted(c, p, j, s) && CheckpointStep(s)
  {
    if j > 0 {
      LoggedCheckpoints(c, p, j - 1, s);
      DecisionEventSteps(c, p, j, s);
      InConcat(CheckpointSaved(s), EpisodeEvents(c, p, j - 1), DecisionEvents(c, p, j - 1));
    }
  }

  /** An item is in a concatenation exactly when it is in one of the parts. */
  lemma InConcat<T>(x: T, a: seq<T>, b: seq<T>)
    ensures x in a + b <==> x in a || x in b
  {
  }

  /** Decision `i` logs the target update or checkpoint of its own step, when one is due. */
  lemma DecisionEventSteps(c: Counters, p: nat, j: nat, s: nat)
    requires j > 0
    ensures TargetUpdated(s) in DecisionEvents(c, p, j - 1) <==> (j - 1 < p && s == c.step + j) && TargetUpdateStep(s)
    ensures CheckpointSaved(s) in DecisionEvents(c, p, j - 1) <==> (j - 1 < p && s == c.step + j) && CheckpointStep(s)
  {
  }

  /** Some event of `events` is a target update. */
  ghost predicate HasTargetUpdate(events: seq<Event>)
  {
    exists s: nat :: TargetUpdated(s) in events
  }

  /** Some event of `events` is a checkpoint. */
  ghost predicate HasCheckpoint(events: seq<Event>)
  {
    exists s: nat :: CheckpointSaved(s) in events
  }

  /**
   * A flag is due after the first `j` decisions exactly when one of them
   * counts a step that is due its event.
   */
  lemma {:induction false} DueCounted(c: Counters, p: nat, j: nat)
    ensures TargetUpdateDue(c, p, j) <==> exists s: nat :: Counted(c, p, j, s) && TargetUpdateStep(s)
    ensures CheckpointDue(c, p, j) <==> exists s: nat :: Counted(c, p, j, s) && CheckpointStep(s)
  {
    if j > 0 {
      DueCounted(c, p, j - 1);
      if j - 1 < p {
        assert Counted(c, p, j, c.step + j);
      }
    }
  }

  lemma ConcatAssociative<T>(a: seq<T>, b: seq<T>, c: seq<T>)
    ensures (a + b) + c == a + (b + c)
  {
  }

  /** Every episode of the list can be played with `fs` repeats per action. */
  predicate AllPlayable<F, A, R>(episodes: seq<Episode<F, A, R>>, fs: nat)
  {
    forall i :: 0 <= i < |episodes| ==> episodes[i].Playable(fs)
  }

  /** `play_steps` of each of the first `i` episodes, in order. */
  function PlayLengths<F, A, R>(episodes: seq<Episode<F, A, R>>, fs: nat, i: nat): (r: seq<nat>)
    requires AllPlayable(episodes, fs) && i <= |episodes|
    ensures |r| == i
  {
    if i == 0 then [] else PlayLengths(episodes, fs, i - 1) + [PlayLength(|episodes[i - 1].ticks|, fs)]
  }

  function Sum(s: seq<nat>): nat
  {
    if s == [] then 0 else Sum(s[..|s| - 1]) + s[|s| - 1]
  }

  /**
   * The transitions the first `i` episodes store, episode after episode:
   * `play_steps + 1` of each, so as many as their `play_steps` summed, plus one per episode.
   */
  function EpisodesDecisions<F, A, R>(episodes: seq<Episode<F, A, R>>, ar: nat, fs: nat, i: nat): (r: seq<Transition<F, A, R>>)
    requires AllPlayable(episodes, fs) && i <= |episodes|
    ensures |r| == Sum(PlayLengths(episodes, fs, i)) + i
  {
    if i == 0 then []
    else
      PlayLengthsSum(episodes, fs, i - 1);
      EpisodesDecisions(episodes, ar, fs, i - 1) + Decisions(episodes[i - 1], ar, fs, PlayLength(|episodes[i - 1].ticks|, fs) + 1)
  }

  /** A step that is due a checkpoint is also due a target update. */
  lemma CheckpointIsTargetUpdateStep(s: nat)
    requires CheckpointStep(s)
    ensures TargetUpdateStep(s)
  {
    CheckpointStepIsMod(s);
    TargetUpdateStepIsMod(s);
    var q := s / 5000;
    assert s == (10 * q) * 500;
  }

  /** The transitions stored before an episode, `h0`, followed by those of its first `j` decisions. */
  function StoredAfter<F, A, R>(h0: seq<Transition<F, A, R>>, e: Episode<F, A, R>, ar: nat, fs: nat, j: nat): (r: seq<Transition<F, A, R>>)
    requires e.Playable(fs) && j <= PlayLength(|e.ticks|, fs) + 1
    ensures |r| == |h0| + j
  {
    if j == 0 then h0 else StoredAfter(h0, e, ar, fs, j - 1) + [Decision(e, ar, fs, j - 1)]
  }

  lemma {:induction false} StoredAfterDecisions<F, A, R>(h0: seq<Transition<F, A, R>>, e: Episode<F, A, R>, ar: nat, fs: nat, j: nat)
    requires e.Playable(fs) && j <= PlayLength(|e.ticks|, fs) + 1
    ensures StoredAfter(h0, e, ar, fs, j) == h0 + Decisions(e, ar, fs, j)
  {
    if j > 0 {
      StoredAfterDecisions(h0, e, ar, fs, j - 1);
      ConcatAssociative(h0, Decisions(e, ar, fs, j - 1), [Decision(e, ar, fs, j - 1)]);
    }
  }

  /** The log before an episode, `l0`, followed by what its first `j` decisions log. */
  function LogAfter(l0: seq<Event>, c: Counters, p: nat, j: nat): (r: seq<Event>)
    ensures |l0| <= |r|
  {
    if j == 0 then l0
    else LogAfter(l0, c, p, j - 1) + OptimizeEvents(c, j - 1) + (if j - 1 < p then StepEvents(c.step + j) else [])
  }

  lemma {:induction false} LogAfterEvents(l0: seq<Event>, c: Counters, p: nat, j: nat)
    ensures LogAfter(l0, c, p, j) == l0 + EpisodeEvents(c, p, j)
  {
    if j > 0 {
      LogAfterEvents(l0, c, p, j - 1);
      var before := EpisodeEvents(c, p, j - 1);
      var optimized := OptimizeEvents(c, j - 1);
      var due: seq<Event> := if j - 1 < p then StepEvents(c.step + j) else [];
      ConcatAssociative(l0, before, optimized);
      ConcatAssociative(l0, before + optimized, due);
      ConcatAssociative(before, optimized, due);
    }
  }

  /** Some decision among the first `j` counts a step that is due a target update. */
  function TargetUpdateDue(c: Counters, p: nat, j: nat): bool
  {
    j > 0 && (TargetUpdateDue(c, p, j - 1) || (j - 1 < p && TargetUpdateStep(c.step + j)))
  }

  /** Some decision among the first `j` counts a step that is due a checkpoint. */
  function CheckpointDue(c: Counters, p: nat, j: nat): bool
  {
    j > 0 && (CheckpointDue(c, p, j - 1) || (j - 1 < p && CheckpointStep(c.step + j)))
  }

  /** Decision `j`, which leaves the step at `s`, raises a flag exactly when it counts a step that is due one. */
  lemma DueStep(c: Counters, p: nat, j: nat)
    ensures TargetUpdateDue(c, p, j + 1) == (TargetUpdateDue(c, p, j) || (j < p && TargetUpdateStep(c.step + j + 1)))
    ensures CheckpointDue(c, p, j + 1) == (CheckpointDue(c, p, j) || (j < p && CheckpointStep(c.step + j + 1)))
  {
  }

  /** The flags `train` raises during an episode say whether its events hold a target update and a checkpoint. */
  lemma DueFlags(c: Counters, p: nat, j: nat)
    ensures TargetUpdateDue(c, p, j) <==> HasTargetUpdate(EpisodeEvents(c, p, j))
    ensures CheckpointDue(c, p, j) <==> HasCheckpoint(EpisodeEvents(c, p, j))
  {
    DueCounted(c, p, j);
    forall s: nat
      ensures TargetUpdated(s) in EpisodeEvents(c, p, j) <==> Counted(c, p, j, s) && TargetUpdateStep(s)
      ensures CheckpointSaved(s) in EpisodeEvents(c, p, j) <==> Counted(c, p, j, s) && CheckpointStep(s)
    {
      LoggedTargetUpdates(c, p, j, s);
      LoggedCheckpoints(c, p, j, s);
    }
  }

  /**
   * Where the loop of `train` leaves an episode of `p` counted decisions: the
   * `p + 1` transitions and the episode's events follow what came before;
   * the latch is set when it was before or the memory now holds more than
   * `BATCH_SIZE`, and the episode optimised exactly when it is set.
   */
  lemma EpisodeOutcome<F, A, R>(h0: seq<Transition<F, A, R>>, l0: seq<Event>, c: Counters, e: Episode<F, A, R>, ar: nat, fs: nat, p: nat)
    requires e.Playable(fs) && p == PlayLength(|e.ticks|, fs)
    ensures StoredAfter(h0, e, ar, fs, p + 1) == h0 + Decisions(e, ar, fs, p + 1)
    ensures LogAfter(l0, c, p, p + 1) == l0 + EpisodeEvents(c, p, p + 1)
    ensures LogAfter(l0, c, p, p + 1)[|l0|..] == EpisodeEvents(c, p, p + 1)
    ensures TargetUpdateDue(c, p, p + 1) <==> HasTargetUpdate(LogAfter(l0, c, p, p + 1)[|l0|..])
    ensures CheckpointDue(c, p, p + 1) <==> HasCheckpoint(LogAfter(l0, c, p, p + 1)[|l0|..])
    ensures AvailableAfter(c, p + 1) == (c.available || Min(c.stored + p + 1, c.capacity) > BATCH_SIZE)
    ensures Optimized in LogAfter(l0, c, p, p + 1)[|l0|..] <==> AvailableAfter(c, p + 1)
  {
    AvailableAfterCount(c, p + 1);
    EpisodeOptimizes(c, p, p + 1);
    DueFlags(c, p, p + 1);
    StoredAfterDecisions(h0, e, ar, fs, p + 1);
    LogAfterEvents(l0, c, p, p + 1);
    assert (l0 + EpisodeEvents(c, p, p + 1))[|l0|..] == EpisodeEvents(c, p, p + 1);
  }

  /**
   * Among the steps after `start` up to `end`, `events` holds a target
   * update exactly at the target-update steps and a checkpoint exactly at
   * the checkpoint steps, and at no other step.
   */
  ghost predicate DueStepsLogged(events: seq<Event>, start: nat, end: nat)
  {
    (forall s: nat :: TargetUpdated(s) in events <==> start < s <= end && TargetUpdateStep(s)) &&
    (forall s: nat :: CheckpointSaved(s) in events <==> start < s <= end && CheckpointStep(s))
  }

  /** An episode of `p` counted decisions logs the due events of the `p` steps it counts. */
  lemma EpisodeLogsDueSteps(c: Counters, p: nat)
    ensures DueStepsLogged(EpisodeEvents(c, p, p + 1), c.step, c.step + p)
  {
    forall s: nat
      ensures TargetUpdated(s) in EpisodeEvents(c, p, p + 1) <==> c.step < s <= c.step + p && TargetUpdateStep(s)
      ensures CheckpointSaved(s) in EpisodeEvents(c, p, p + 1) <==> c.step < s <= c.step + p && CheckpointStep(s)
    {
      EpisodeEventSteps(c, p, p + 1, s);
    }
  }

  /** The due events of two consecutive stretches of steps make up those of the whole stretch. */
  lemma DueStepsConcat(a: seq<Event>, b: seq<Event>, start: nat, mid: nat, end: nat)
    requires start <= mid <= end
    requires DueStepsLogged(a, start, mid) && DueStepsLogged(b, mid, end)
    ensures DueStepsLogged(a + b, start, end)
  {
    forall s: nat
      ensures TargetUpdated(s) in a + b <==> start < s <= end && TargetUpdateStep(s)
      ensures CheckpointSaved(s) in a + b <==> start < s <= end && CheckpointStep(s)
    {
      InConcat(TargetUpdated(s), a, b);
      InConcat(CheckpointSaved(s), a, b);
    }
  }

  /**
   * Appending what an episode logs to a log whose part after `l0` holds
   * the due events of the steps from `s0` up to the episode's start gives
   * a log whose part after `l0` holds those up to the episode's end.
   */
  lemma EpisodeExtendsLog(l0: seq<Event>, before: seq<Event>, c: Counters, p: nat, s0: nat)
    requires |l0| <= |before| && before[..|l0|] == l0 && s0 <= c.step
    requires DueStepsLogged(before[|l0|..], s0, c.step)
    ensures |l0| <= |before + EpisodeEvents(c, p, p + 1)| && (before + EpisodeEvents(c, p, p + 1))[..|l0|] == l0
    ensures DueStepsLogged((before + EpisodeEvents(c, p, p + 1))[|l0|..], s0, c.step + p)
  {
    var events := EpisodeEvents(c, p, p + 1);
    EpisodeLogsDueSteps(c, p);
    assert (before + events)[|l0|..] == before[|l0|..] + events;
    DueStepsConcat(before[|l0|..], events, s0, c.step, c.step + p);
  }

  /** One more episode appends its transitions to those of the episodes before it. */
  lemma HistoryNext<F, A, R>(episodes: seq<Episode<F, A, R>>, ar: nat, fs: nat, i: nat,
                             h0: seq<Transition<F, A, R>>, history: seq<Transition<F, A, R>>)
    requires AllPlayable(episodes, fs) && i < |episodes|
    requires history == h0 + EpisodesDecisions(episodes, ar, fs, i)
    ensures history + Decisions(episodes[i], ar, fs, PlayLength(|episodes[i].ticks|, fs) + 1) ==
            h0 + EpisodesDecisions(episodes, ar, fs, i + 1)
  {
    ConcatAssociative(h0, EpisodesDecisions(episodes, ar, fs, i),
                      Decisions(episodes[i], ar, fs, PlayLength(|episodes[i].ticks|, fs) + 1));
  }

  /** An optimisation in the log after `l0` is one before the new events or among them. */
  lemma OptimizedInSuffix(l0: seq<Event>, before: seq<Event>, events: seq<Event>)
    requires |l0| <= |before|
    ensures (before + events)[|before|..] == events
    ensures Optimized in (before + events)[|l0|..] <==> Optimized in before[|l0|..] || Optimized in events
  {
    assert (before + events)[|l0|..] == before[|l0|..] + events;
    InConcat(Optimized, before[|l0|..], events);
  }

  /** One more episode adds its length to the sum. */
  lemma PlayLengthsSum<F, A, R>(episodes: seq<Episode<F, A, R>>, fs: nat, i: nat)
    requires AllPlayable(episodes, fs) && i < |episodes|
    ensures Sum(PlayLengths(episodes, fs, i + 1)) == Sum(PlayLengths(episodes, fs, i)) + PlayLength(|episodes[i].ticks|, fs)
  {
    var lengths := PlayLengths(episodes, fs, i + 1);
    assert lengths[..i] == PlayLengths(episodes, fs, i);
  }

  /**
   * The transitions stored, the size of the replay memory, its latch, the
   * log and the flags `train` has raised after the first `j` decisions of
   * episode `e`, relative to the counters `c`, transitions `h0` and events
   * `l0` the episode started from.
   */
  ghost predicate AfterDecisions<F, A, R>(e: Episode<F, A, R>, ar: nat, fs: nat, c: Counters,
                                          h0: seq<Transition<F, A, R>>, l0: seq<Event>, j: nat,
                                          history: seq<Transition<F, A, R>>, stored: nat, available: bool,
                                          log: seq<Event>, targetUpdated: bool, checkpointed: bool)
  {
    e.Playable(fs) && j <= PlayLength(|e.ticks|, fs) + 1 &&
    history == StoredAfter(h0, e, ar, fs, j) &&
    stored == Min(c.stored + j, c.capacity) &&
    available == AvailableAfter(c, j) &&
    log == LogAfter(l0, c, PlayLength(|e.ticks|, fs), j) &&
    targetUpdated == TargetUpdateDue(c, PlayLength(|e.ticks|, fs), j) &&
    checkpointed == CheckpointDue(c, PlayLength(|e.ticks|, fs), j)
  }

  /** Before its first decision, an episode has stored, logged and flagged nothing of its own. */
  lemma NoDecisions<F, A, R>(e: Episode<F, A, R>, ar: nat, fs: nat, c: Counters, h0: seq<Transition<F, A, R>>, l0: seq<Event>)
    requires e.Playable(fs)
    ensures AfterDecisions(e, ar, fs, c, h0, l0, 0, h0, Min(c.stored, c.capacity), c.available, l0, false, false)
  {
  }

  /**
   * One decision takes the state after `j` decisions to the state after
   * `j + 1`: it stores its transition, sets the latch once more than
   * `BATCH_SIZE` are stored, optimises while the latch is set and, unless
   * it ended the episode, logs and flags what is due at the step it counts.
   */
  lemma DecisionKeepsPlayed<F, A, R>(e: Episode<F, A, R>, ar: nat, fs: nat, c: Counters,
                                     h0: seq<Transition<F, A, R>>, l0: seq<Event>, j: nat,
                                     last: bool, step': nat, updated: bool, saved: bool,
                                     history: seq<Transition<F, A, R>>, stored: nat, available: bool,
                                     log: seq<Event>, targetUpdated: bool, checkpointed: bool,
                                     history': seq<Transition<F, A, R>>, stored': nat, available': bool,
                                     optimized: seq<Event>, log': seq<Event>, targetUpdated': bool, checkpointed': bool)
    requires AfterDecisions(e, ar, fs, c, h0, l0, j, history, stored, available, log, targetUpdated, checkpointed)
    requires j <= PlayLength(|e.ticks|, fs)
    requires last <==> j == PlayLength(|e.ticks|, fs)
    requires !last ==> step' == c.step + j + 1
    requires history' == history + [Decision(e, ar, fs, j)]
    requires stored' == Min(stored + 1, c.capacity)
    requires available' == (available || stored' > BATCH_SIZE)
    requires optimized == log + if available' then [Optimized] else []
    requires log' == if last then optimized else optimized + StepEvents(step')
    requires updated == (!last && TargetUpdateStep(step')) && saved == (!last && CheckpointStep(step'))
    requires targetUpdated' == (targetUpdated || updated) && checkpointed' == (checkpointed || saved)
    ensures AfterDecisions(e, ar, fs, c, h0, l0, j + 1, history', stored', available', log', targetUpdated', checkpointed')
  {
    var p := PlayLength(|e.ticks|, fs);
    HistoryStep(h0, e, ar, fs, j, history, history');
    MemoryStep(c, j, stored, available, stored', available');
    LogStep(l0, c, p, j, last, step', log, optimized, log');
    FlagsStep(c, p, j, last, step', updated, saved, targetUpdated, checkpointed, targetUpdated', checkpointed');
  }

  /** One more put leaves the memory size and latch as they are after `j + 1` puts. */
  lemma MemoryStep(c: Counters, j: nat, stored: nat, available: bool, stored': nat, available': bool)
    requires stored == Min(c.stored + j, c.capacity) && available == AvailableAfter(c, j)
    requires stored' == Min(stored + 1, c.capacity)
    requires available' == (available || stored' > BATCH_SIZE)
    ensures stored' == Min(c.stored + (j + 1), c.capacity)
    ensures available' == AvailableAfter(c, j + 1)
  {
    StoredCount(c, j, stored);
  }

  /** The flags after decision `j` are the ones due after `j + 1` decisions. */
  lemma FlagsStep(c: Counters, p: nat, j: nat, last: bool, step': nat, updated: bool, saved: bool,
                  targetUpdated: bool, checkpointed: bool, targetUpdated': bool, checkpointed': bool)
    requires j <= p && (last <==> j == p)
    requires !last ==> step' == c.step + j + 1
    requires targetUpdated == TargetUpdateDue(c, p, j) && checkpointed == CheckpointDue(c, p, j)
    requires updated == (!last && TargetUpdateStep(step')) && saved == (!last && CheckpointStep(step'))
    requires targetUpdated' == (targetUpdated || updated) && checkpointed' == (checkpointed || saved)
    ensures targetUpdated' == TargetUpdateDue(c, p, j + 1)
    ensures checkpointed' == CheckpointDue(c, p, j + 1)
  {
    DueStep(c, p, j);
  }

  /** Storing the transition of decision `j` makes the history the one after `j + 1` decisions. */
  lemma HistoryStep<F, A, R>(h0: seq<Transition<F, A, R>>, e: Episode<F, A, R>, ar: nat, fs: nat, j: nat,
                             history: seq<Transition<F, A, R>>, history': seq<Transition<F, A, R>>)
    requires e.Playable(fs) && j <= PlayLength(|e.ticks|, fs)
    requires history == StoredAfter(h0, e, ar, fs, j)
    requires history' == history + [Decision(e, ar, fs, j)]
    ensures history' == StoredAfter(h0, e, ar, fs, j + 1)
  {
  }

  /** What decision `j` appends to the log makes it the log after `j + 1` decisions. */
  lemma LogStep(l0: seq<Event>, c: Counters, p: nat, j: nat, last: bool, step': nat,
                log: seq<Event>, optimized: seq<Event>, log': seq<Event>)
    requires log == LogAfter(l0, c, p, j)
    requires j <= p && (last <==> j == p)
    requires !last ==> step' == c.step + j + 1
    requires optimized == log + OptimizeEvents(c, j)
    requires log' == if last then optimized else optimized + StepEvents(step')
    ensures log' == LogAfter(l0, c, p, j + 1)
  {
    if last {
      assert optimized + [] == optimized;
    }
  }

  class Agent<F(!new), A(!new), R(!new)> {
    const actionRepeat: nat
    const frameSkipping: nat
    const replay: ReplayMemory<Transition<F, A, R>>
    /** `self._state_buffer`, a deque with `maxlen == actionRepeat`. */
    var stateBuffer: seq<F>
    var step: nat
    /** `self._play_steps`: the lengths of the last `PLAY_HISTORY` episodes. */
    var recentPlaySteps: seq<nat>
    /** The length of every episode played, oldest first. */
    ghost var playStepsHistory: seq<nat>
    /** Optimisations, target updates and checkpoints, in the order they happened. */
    var log: seq<Event>

    ghost predicate Valid()
      reads this, replay
    {
      replay.Valid() &&
      actionRepeat > 0 &&
      |stateBuffer| <= actionRepeat &&
      recentPlaySteps == LastN(playStepsHistory, PLAY_HISTORY)
    }

    /** An agent needs at least one frame per state: `np.stack` of an empty buffer fails. */
    constructor (actionRepeat: nat, frameSkipping: nat)
      requires actionRepeat > 0
      ensures Valid() && fresh(replay)
      ensures this.actionRepeat == actionRepeat && this.frameSkipping == frameSkipping
      ensures replay.capacity == DEFAULT_CAPACITY && replay.history == [] && !replay.available
      ensures stateBuffer == [] && step == 0 && recentPlaySteps == [] && playStepsHistory == [] && log == []
    {
      this.actionRepeat := actionRepeat;
      this.frameSkipping := frameSkipping;
      stateBuffer := [];
      step := 0;
      recentPlaySteps := [];
      playStepsHistory := [];
      log := [];
      replay := new ReplayMemory(DEFAULT_CAPACITY);
    }

    /** Refills the frame buffer with `actionRepeat` copies of the screen after a reset. */
    method GetInitialStates(screen: F) returns (states: seq<F>)
      requires Valid()
      modifies this`stateBuffer
      ensures Valid()
      ensures stateBuffer == Repeat(screen, actionRepeat)
      ensures states == stateBuffer
    {
      states := Repeat(screen, actionRepeat);
      stateBuffer := [];
      for i := 0 to actionRepeat
        invariant stateBuffer == Repeat(screen, i)
      {
        stateBuffer := Append(stateBuffer, screen, actionRepeat);
      }
    }

    /** Pushes the newest frame; a full buffer drops its oldest. */
    method AddState(screen: F)
      requires Valid()
      modifies this`stateBuffer
      ensures Valid()
      ensures stateBuffer == Append(old(stateBuffer), screen, actionRepeat)
    {
      stateBuffer := Append(stateBuffer, screen, actionRepeat);
    }

    /** The frames of the buffer, oldest first. */
    method RecentStates() returns (states: seq<F>)
      ensures states == stateBuffer
    {
      states := stateBuffer;
    }

    /**
     * The inner `for` loop of `train`: applies the chosen action up to
     * `frameSkipping` times from tick `start`, pushing each screen, and
     * stops early at `done`. Returns the last tick and the next tick's index.
     */
    method RepeatAction(e: Episode<F, A, R>, start: nat) returns (tick: Tick<F, R>, next: nat)
      requires Valid() && e.Playable(frameSkipping) && start < |e.ticks|
      requires stateBuffer == Window(e.first, e.ticks, actionRepeat, start)
      modifies this`stateBuffer
      ensures Valid()
      ensures next == Min(start + frameSkipping, |e.ticks|) && next > start
      ensures tick == e.ticks[next - 1]
      ensures tick.done <==> next == |e.ticks|
      ensures stateBuffer == Window(e.first, e.ticks, actionRepeat, next)
    {
      tick := e.ticks[start];
      AddState(tick.screen);
      next := start + 1;
      while next - start < frameSkipping && !tick.done
        invariant Valid()
        invariant start < next <= start + frameSkipping && next <= |e.ticks|
        invariant tick == e.ticks[next - 1]
        invariant stateBuffer == Window(e.first, e.ticks, actionRepeat, next)
        decreases start + frameSkipping - next
      {
        tick := e.ticks[next];
        AddState(tick.screen);
        next := next + 1;
      }
      if tick.done {
        assert next == |e.ticks|;
      } else {
        assert next < |e.ticks|;
      }
    }

    /**
     * Stores the transition and, when the memory is available, runs one
     * optimisation step, whose draw of `BATCH_SIZE` transitions never fails.
     */
    method StoreAndOptimize(transition: Transition<F, A, R>)
      requires Valid()
      modifies replay, this`log
      ensures Valid()
      ensures replay.history == old(replay.history) + [transition]
      ensures |replay.memory| == Min(|old(replay.memory)| + 1, replay.capacity)
      ensures replay.available == (old(replay.available) || |replay.memory| > BATCH_SIZE)
      ensures log == old(log) + if replay.available then [Optimized] else []
    {
      replay.Put(transition);
      var available := replay.IsAvailable();
      if available {
        var drawn := replay.Sample(BATCH_SIZE);
        assert drawn.Sampled?;
        log := log + [Optimized];
      }
    }

    /** Counts one more step, updating the target network and saving a checkpoint when due. */
    method AdvanceStep() returns (targetUpdated: bool, checkpointed: bool)
      modifies this`step, this`log
      ensures step == old(step) + 1
      ensures log == old(log) + StepEvents(step)
      ensures targetUpdated <==> TargetUpdateStep(step)
      ensures checkpointed <==> CheckpointStep(step)
    {
      step := step + 1;
      TargetUpdateStepIsMod(step);
      CheckpointStepIsMod(step);
      targetUpdated := step % 500 == 0;
      if targetUpdated {
        log := log + [TargetUpdated(step)];
      }
      checkpointed := step % 5000 == 0;
      if checkpointed {
        log := log + [CheckpointSaved(step)];
      }
    }

    /**
     * The first part of decision `j`, which starts at tick `cursor` with the
     * frames `states`: takes the chosen action, repeats it, stores the
     * transition and optimises. `done` says whether the episode ended.
     */
    method Act(e: Episode<F, A, R>, j: nat, cursor: nat, states: seq<F>) returns (done: bool, next: nat, nextStates: seq<F>)
      requires Valid() && e.Playable(frameSkipping)
      requires j <= PlayLength(|e.ticks|, frameSkipping) && cursor == DecisionStart(j, frameSkipping) < |e.ticks|
      requires states == stateBuffer == Window(e.first, e.ticks, actionRepeat, cursor)
      modifies this`stateBuffer, this`log, replay
      ensures Valid()
      ensures done <==> j == PlayLength(|e.ticks|, frameSkipping)
      ensures next == Min(cursor + frameSkipping, |e.ticks|)
      ensures !done ==> next == DecisionStart(j + 1, frameSkipping) < |e.ticks|
      ensures nextStates == stateBuffer == Window(e.first, e.ticks, actionRepeat, next)
      ensures replay.history == old(replay.history) + [Decision(e, actionRepeat, frameSkipping, j)]
      ensures |replay.memory| == Min(|old(replay.memory)| + 1, replay.capacity)
      ensures replay.available == (old(replay.available) || |replay.memory| > BATCH_SIZE)
      ensures log == old(log) + if replay.available then [Optimized] else []
    {
      DecisionStartOrder(j, PlayLength(|e.ticks|, frameSkipping), frameSkipping);
      DecisionBounds(e, frameSkipping, j);
      var action := e.actions[j];
      var tick;
      tick, next := RepeatAction(e, cursor);
      nextStates := RecentStates();
      assert Transition(states, action, tick.reward, nextStates) == Decision(e, actionRepeat, frameSkipping, j);
      StoreAndOptimize(Transition(states, action, tick.reward, nextStates));
      done := tick.done;
    }

    /**
     * The agent after the first `j` decisions of episode `e`, relative to
     * the counters `c`, transitions `h0` and events `l0` the episode started
     * from, with the flags `train` has raised so far.
     */
    ghost predicate Played(e: Episode<F, A, R>, c: Counters, h0: seq<Transition<F, A, R>>, l0: seq<Event>,
                           j: nat, targetUpdated: bool, checkpointed: bool)
      reads this, replay
    {
      Valid() && replay.capacity == c.capacity &&
      AfterDecisions(e, actionRepeat, frameSkipping, c, h0, l0, j, replay.history, |replay.memory|, replay.available,
                     log, targetUpdated, checkpointed)
    }

    /**
     * One turn of the inner `while True` of `train`, decision `j` of the
     * episode, which starts at tick `cursor` with the frames `states`:
     * chooses the action, repeats it, stores the transition and optimises;
     * unless the episode ended, counts the step.
     */
    method Decide(e: Episode<F, A, R>, ghost c: Counters, ghost h0: seq<Transition<F, A, R>>, ghost l0: seq<Event>,
                  j: nat, cursor: nat, states: seq<F>, targetUpdated: bool, checkpointed: bool)
      returns (last: bool, next: nat, nextStates: seq<F>, targetUpdated': bool, checkpointed': bool)
      requires Played(e, c, h0, l0, j, targetUpdated, checkpointed) && j <= PlayLength(|e.ticks|, frameSkipping)
      requires cursor == DecisionStart(j, frameSkipping) < |e.ticks|
      requires states == stateBuffer == Window(e.first, e.ticks, actionRepeat, cursor)
      requires step == c.step + j
      modifies this`stateBuffer, this`step, this`log, replay
      ensures Played(e, c, h0, l0, j + 1, targetUpdated', checkpointed')
      ensures last <==> j == PlayLength(|e.ticks|, frameSkipping)
      ensures next == Min(cursor + frameSkipping, |e.ticks|)
      ensures !last ==> next == DecisionStart(j + 1, frameSkipping) < |e.ticks|
      ensures nextStates == stateBuffer == Window(e.first, e.ticks, actionRepeat, next)
      ensures step == c.step + j + (if last then 0 else 1)
    {
      ghost var history := replay.history;
      ghost var stored := |replay.memory|;
      ghost var available := replay.available;
      ghost var logged := log;
      last, next, nextStates := Act(e, j, cursor, states);
      ghost var optimized := log;
      var updated, saved := false, false;
      if !last {
        updated, saved := AdvanceStep();
      }
      targetUpdated', checkpointed' := targetUpdated || updated, checkpointed || saved;
      DecisionKeepsPlayed(e, actionRepeat, frameSkipping, c, h0, l0, j, last, step, updated, saved,
                          history, stored, available, logged, targetUpdated, checkpointed,
                          replay.history, |replay.memory|, replay.available, optimized, log, targetUpdated', checkpointed');
    }

    /** `self._play_steps.append(play_steps)`: records the length of the episode just played. */
    method RecordPlaySteps(n: nat)
      requires Valid()
      modifies this`recentPlaySteps, this`playStepsHistory
      ensures Valid()
      ensures playStepsHistory == old(playStepsHistory) + [n]
      ensures recentPlaySteps == Append(old(recentPlaySteps), n, PLAY_HISTORY)
    {
      AppendToWindow(playStepsHistory, n, PLAY_HISTORY);
      recentPlaySteps := Append(recentPlaySteps, n, PLAY_HISTORY);
      playStepsHistory := playStepsHistory + [n];
    }

    /**
     * The inner `while True` of `train` over an episode whose frame buffer
     * has just been reset: one decision after another until the one that
     * ends the episode, relative to the counters `c`, transitions `h0` and
     * events `l0` the episode started from.
     */
    method PlayEpisode(e: Episode<F, A, R>, ghost c: Counters, ghost h0: seq<Transition<F, A, R>>, ghost l0: seq<Event>,
                       states: seq<F>)
      returns (playSteps: nat, targetUpdated: bool, checkpointed: bool)
      requires Valid() && e.Playable(frameSkipping)
      requires states == stateBuffer == Window(e.first, e.ticks, actionRepeat, 0)
      requires step == c.step && replay.capacity == c.capacity && replay.history == h0 && log == l0
      requires |replay.memory| == Min(c.stored, c.capacity) && replay.available == c.available
      modifies this`stateBuffer, this`step, this`log, replay
      ensures Valid()
      ensures playSteps == PlayLength(|e.ticks|, frameSkipping)
      ensures step == c.step + playSteps
      ensures stateBuffer == Window(e.first, e.ticks, actionRepeat, |e.ticks|)
      ensures replay.history == StoredAfter(h0, e, actionRepeat, frameSkipping, playSteps + 1)
      ensures log == LogAfter(l0, c, playSteps, playSteps + 1)
      ensures |replay.memory| == Min(c.stored + playSteps + 1, c.capacity)
      ensures replay.available == AvailableAfter(c, playSteps + 1)
      ensures targetUpdated == TargetUpdateDue(c, playSteps, playSteps + 1)
      ensures checkpointed == CheckpointDue(c, playSteps, playSteps + 1)
    {
      ghost var p := PlayLength(|e.ticks|, frameSkipping);
      var current := states;
      targetUpdated, checkpointed := false, false;
      playSteps := 0;
      var cursor: nat := 0;
      NoDecisions(e, actionRepeat, frameSkipping, c, h0, l0);
      while true
        invariant Played(e, c, h0, l0, playSteps, targetUpdated, checkpointed) && playSteps <= p
        invariant cursor == DecisionStart(playSteps, frameSkipping) < |e.ticks|
        invariant current == stateBuffer == Window(e.first, e.ticks, actionRepeat, cursor)
        invariant step == c.step + playSteps
        decreases p - playSteps
      {
        var last, next, nextStates;
        last, next, nextStates, targetUpdated, checkpointed :=
          Decide(e, c, h0, l0, playSteps, cursor, current, targetUpdated, checkpointed);
        current := nextStates;
        if last {
          break;
        }
        playSteps := playSteps + 1;
        cursor := next;
      }
    }

    /**
     * One pass of the outer `while True` of `train`: one transition per
     * decision, the terminal one included; `step` and `play_steps` count
     * only the decisions that did not end the episode.
     */
    method TrainEpisode(e: Episode<F, A, R>) returns (targetUpdated: bool, checkpointed: bool)
      requires Valid() && e.Playable(frameSkipping)
      modifies this, replay
      ensures Valid()
      ensures step == old(step) + PlayLength(|e.ticks|, frameSkipping)
      ensures playStepsHistory == old(playStepsHistory) + [PlayLength(|e.ticks|, frameSkipping)]
      ensures recentPlaySteps == Append(old(recentPlaySteps), PlayLength(|e.ticks|, frameSkipping), PLAY_HISTORY)
      ensures replay.history == old(replay.history) +
                                Decisions(e, actionRepeat, frameSkipping, PlayLength(|e.ticks|, frameSkipping) + 1)
      ensures |replay.history| == |old(replay.history)| + PlayLength(|e.ticks|, frameSkipping) + 1
      ensures log == old(log) + EpisodeEvents(Counters(old(step), old(replay.available), |old(replay.memory)|, replay.capacity),
                                              PlayLength(|e.ticks|, frameSkipping), PlayLength(|e.ticks|, frameSkipping) + 1)
      ensures stateBuffer == Window(e.first, e.ticks, actionRepeat, |e.ticks|)
      ensures replay.available == (old(replay.available) || |replay.memory| > BATCH_SIZE)
      ensures Optimized in log[|old(log)|..] <==> replay.available
      ensures targetUpdated <==> HasTargetUpdate(log[|old(log)|..])
      ensures checkpointed <==> HasCheckpoint(log[|old(log)|..])
    {
      ghost var c := Counters(step, replay.available, |replay.memory|, replay.capacity);
      ghost var h0 := replay.history;
      ghost var l0 := log;
      var states := GetInitialStates(e.first);
      var playSteps;
      playSteps, targetUpdated, checkpointed := PlayEpisode(e, c, h0, l0, states);
      EpisodeOutcome(h0, l0, c, e, actionRepeat, frameSkipping, playSteps);
      RecordPlaySteps(playSteps);
    }

    /**
     * The outer `while True` of `train`, over a finite list of episodes:
     * `step` advances by the episodes' `play_steps`, each of which is
     * recorded; every decision stores one transition, the terminal ones
     * included, episode after episode; the latch ends set once more than
     * `BATCH_SIZE` are stored; the log holds a target update exactly at
     * each target-update step reached, a checkpoint exactly at each
     * checkpoint step reached, and an optimisation exactly when the latch
     * ends set.
     */
    method Train(episodes: seq<Episode<F, A, R>>)
      requires Valid()
      requires AllPlayable(episodes, frameSkipping)
      modifies this, replay
      ensures Valid()
      ensures step == old(step) + Sum(PlayLengths(episodes, frameSkipping, |episodes|))
      ensures playStepsHistory == old(playStepsHistory) + PlayLengths(episodes, frameSkipping, |episodes|)
      ensures recentPlaySteps == LastN(playStepsHistory, PLAY_HISTORY)
      ensures |replay.history| == |old(replay.history)| + Sum(PlayLengths(episodes, frameSkipping, |episodes|)) + |episodes|
      ensures replay.history == old(replay.history) + EpisodesDecisions(episodes, actionRepeat, frameSkipping, |episodes|)
      ensures replay.available == (old(replay.available) || (|episodes| > 0 && |replay.memory| > BATCH_SIZE))
      ensures |old(log)| <= |log| && log[..|old(log)|] == old(log)
      ensures DueStepsLogged(log[|old(log)|..], old(step), step)
      ensures Optimized in log[|old(log)|..] <==> |episodes| > 0 && replay.available
    {
      ghost var l0 := log;
      ghost var s0 := step;
      ghost var h0 := replay.history;
      ghost var a0 := replay.available;
      ghost var lengths0 := playStepsHistory;
      assert DueStepsLogged(log[|l0|..], s0, step);
      assert replay.history == h0 + EpisodesDecisions(episodes, actionRepeat, frameSkipping, 0);
      for i := 0 to |episodes|
        invariant Valid()
        invariant step == s0 + Sum(PlayLengths(episodes, frameSkipping, i))
        invariant playStepsHistory == lengths0 + PlayLengths(episodes, frameSkipping, i)
        invariant |replay.history| == |h0| + Sum(PlayLengths(episodes, frameSkipping, i)) + i
        invariant replay.history == h0 + EpisodesDecisions(episodes, actionRepeat, frameSkipping, i)
        invariant replay.available == (a0 || (i > 0 && |replay.memory| > BATCH_SIZE))
        invariant |l0| <= |log| && log[..|l0|] == l0
        invariant DueStepsLogged(log[|l0|..], s0, step)
        invariant Optimized in log[|l0|..] <==> i > 0 && replay.available
      {
        TrainNext(episodes, i, l0, s0, h0, a0, lengths0);
      }
    }

    /** Pass `i` of the outer loop of `train`: plays episode `i` and keeps what `Train` states about the episodes before it. */
    method TrainNext(episodes: seq<Episode<F, A, R>>, i: nat, ghost l0: seq<Event>, ghost s0: nat,
                     ghost h0: seq<Transition<F, A, R>>, ghost a0: bool, ghost lengths0: seq<nat>)
      requires Valid()
      requires AllPlayable(episodes, frameSkipping) && i < |episodes|
      requires step == s0 + Sum(PlayLengths(episodes, frameSkipping, i))
      requires playStepsHistory == lengths0 + PlayLengths(episodes, frameSkipping, i)
      requires |replay.history| == |h0| + Sum(PlayLengths(episodes, frameSkipping, i)) + i
      requires replay.history == h0 + EpisodesDecisions(episodes, actionRepeat, frameSkipping, i)
      requires replay.available == (a0 || (i > 0 && |replay.memory| > BATCH_SIZE))
      requires |l0| <= |log| && log[..|l0|] == l0
      requires DueStepsLogged(log[|l0|..], s0, step)
      requires Optimized in log[|l0|..] <==> i > 0 && replay.available
      modifies this, replay
      ensures Valid()
      ensures step == s0 + Sum(PlayLengths(episodes, frameSkipping, i + 1))
      ensures playStepsHistory == lengths0 + PlayLengths(episodes, frameSkipping, i + 1)
      ensures |replay.history| == |h0| + Sum(PlayLengths(episodes, frameSkipping, i + 1)) + i + 1
      ensures replay.history == h0 + EpisodesDecisions(episodes, actionRepeat, frameSkipping, i + 1)
      ensures replay.available == (a0 || |replay.memory| > BATCH_SIZE)
      ensures |l0| <= |log| && log[..|l0|] == l0
      ensures DueStepsLogged(log[|l0|..], s0, step)
      ensures Optimized in log[|l0|..] <==> replay.available
    {
      var e := episodes[i];
      ghost var c := Counters(step, replay.available, |replay.memory|, replay.capacity);
      ghost var before := log;
      ghost var history := replay.history;
      ghost var p := PlayLength(|e.ticks|, frameSkipping);
      var updated, saved := TrainEpisode(e);
      EpisodeExtendsLog(l0, before, c, p, s0);
      PlayLengthsSum(episodes, frameSkipping, i);
      HistoryNext(episodes, actionRepeat, frameSkipping, i, h0, history);
      ConcatAssociative(lengths0, PlayLengths(episodes, frameSkipping, i), [p]);
      OptimizedInSuffix(l0, before, EpisodeEvents(c, p, p + 1));
    }
  }

  /**
   * A fresh agent with the default settings, trained on a list of
   * episodes, optimises at least once exactly when the episodes store more
   * than `BATCH_SIZE` transitions between them.
   */
  method FreshAgentOptimizes<F(!new), A(!new), R(!new)>(episodes: seq<Episode<F, A, R>>) returns (events: seq<Event>)
    requires AllPlayable(episodes, DEFAULT_FRAME_SKIPPING)
    ensures Optimized in events <==> Sum(PlayLengths(episodes, DEFAULT_FRAME_SKIPPING, |episodes|)) + |episodes| > BATCH_SIZE
  {
    var agent := new Agent<F, A, R>(DEFAULT_ACTION_REPEAT, DEFAULT_FRAME_SKIPPING);
    agent.Train(episodes);
    events := agent.log;
    assert events[0..] == events;
  }

  /**
   * A fresh agent with the default settings plays an episode that is done
   * on its first action: it stores exactly one transition, the terminal
   * one, leaves the step at 0, records `play_steps == 0`, and logs nothing,
   * since one stored transition is too few to optimise on.
   */
  method FirstActionDoneScenario<F(!new), A(!new), R(!new)>(first: F, screen: F, action: A, reward: R)
    returns (stored: seq<Transition<F, A, R>>, step: nat, recent: seq<nat>, events: seq<Event>)
    ensures stored == [Transition([first, first, first, first], action, reward, [first, first, first, screen])]
    ensures step == 0 && recent == [0] && events == []
  {
    var agent := new Agent<F, A, R>(DEFAULT_ACTION_REPEAT, DEFAULT_FRAME_SKIPPING);
    var e := Episode(first, [Tick(screen, reward, true)], [action]);
    assert DecisionStart(1, DEFAULT_FRAME_SKIPPING) == 4;
    var updated, saved := agent.TrainEpisode(e);
    assert PlayLength(1, DEFAULT_FRAME_SKIPPING) == 0;
    assert Repeat(first, 4) == [first, first, first, first];
    assert Window(first, e.ticks, 4, 1) == [first, first, first, screen];
    assert Decisions(e, 4, 4, 1) == [Transition([first, first, first, first], action, reward, [first, first, first, screen])];
    assert !AvailableAfter(Counters(0, false, 0, DEFAULT_CAPACITY), 1);
    stored, step, recent, events := agent.replay.memory, agent.step, agent.recentPlaySteps, agent.log;
  }
}
