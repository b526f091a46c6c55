/**
 * The experience-replay memory: a bounded FIFO of transitions backed by a
 * `deque(maxlen=capacity)`, a uniform draw without replacement, and the
 * one-way "available" latch that gates optimisation.
 */
module Replay {
  import opened Deques

  /** Number of transitions drawn per optimisation step. */
  const BATCH_SIZE: nat := 16
  /** Capacity the agent gives its replay memory. */
  const DEFAULT_CAPACITY: nat := 20000

  /** No position occurs twice. */
  predicate Distinct(s: seq<nat>)
  {
    forall a, b :: 0 <= a < b < |s| ==> s[a] != s[b]
  }

  /**
   * What a draw of `k` transitions yields: the positions drawn and the
   * transitions at them; the `ValueError` `random.sample` raises when `k`
   * exceeds the number stored; or the `TypeError` of building a
   * `Transition` from the empty draw when `k == 0`.
   */
  datatype SampleResult<T> =
    | Sampled(positions: seq<nat>, batch: seq<T>)
    | SampleLargerThanPopulation
    | EmptyBatch

  /** While fewer than `n` positions are drawn, some position below `n` is still free. */
  lemma {:induction false} FreePosition(s: seq<nat>, n: nat)
    requires Distinct(s)
    requires forall i :: 0 <= i < |s| ==> s[i] < n
    requires |s| < n
    ensures exists j :: 0 <= j < n && j !in s
  {
    if n - 1 in s {
      var p :| 0 <= p < |s| && s[p] == n - 1;
      var rest := s[..p] + s[p + 1..];
      assert forall i :: 0 <= i < |rest| ==> rest[i] == (if i < p then s[i] else s[i + 1]);
      assert forall i :: 0 <= i < |rest| ==> rest[i] < n - 1;
      FreePosition(rest, n - 1);
      var j :| 0 <= j < n - 1 && j !in rest;
      assert forall i :: 0 <= i < |s| && i != p ==> s[i] in rest by {
        forall i | 0 <= i < |s| && i != p
          ensures s[i] in rest
        {
          if i < p {
            assert rest[i] == s[i];
          } else {
            assert rest[i - 1] == s[i];
          }
        }
      }
      assert j !in s;
    } else {
      assert 0 <= n - 1 < n && n - 1 !in s;
    }
  }

  class ReplayMemory<T(!new)> {
    const capacity: nat
    /** The deque: oldest transition first. */
    var memory: seq<T>
    /** The `_available` latch. */
    var available: bool
    /** Every transition ever put, oldest first. */
    ghost var history: seq<T>

    /**
     * The memory holds the most recent `capacity` transitions ever put, and
     * the latch is only ever set while more than `BATCH_SIZE` are stored
     * (the stored count never drops afterwards).
     */
    ghost predicate Valid()
      reads this
    {
      memory == LastN(history, capacity) &&
      (available ==> |memory| > BATCH_SIZE)
    }

    constructor (capacity: nat)
      ensures Valid()
      ensures this.capacity == capacity
      ensures memory == [] && history == [] && !available
    {
      this.capacity := capacity;
      memory := [];
      available := false;
      history := [];
    }

    /** Stores one transition, evicting the oldest one when the memory is full. */
    method Put(transition: T)
      requires Valid()
      modifies this
      ensures Valid()
      ensures history == old(history) + [transition]
      ensures memory == Append(old(memory), transition, capacity)
      ensures |memory| == Min(|old(memory)| + 1, capacity)
      ensures available == old(available)
    {
      AppendToWindow(history, transition, capacity);
      memory := Append(memory, transition, capacity);
      history := history + [transition];
    }

    method Size() returns (n: nat)
      requires Valid()
      ensures n == |memory|
      ensures n <= capacity
      ensures n == Min(|history|, capacity)
    {
      n := |memory|;
    }

    /**
     * True once more than `BATCH_SIZE` transitions are stored, and true
     * forever after; sets the latch as a side effect.
     */
    method IsAvailable() returns (b: bool)
      requires Valid()
      modifies this`available
      ensures Valid()
      ensures b == available
      ensures b == (old(available) || |memory| > BATCH_SIZE)
      ensures old(available) ==> b
      ensures capacity > BATCH_SIZE ==> (b <==> |history| > BATCH_SIZE)
      ensures capacity <= BATCH_SIZE ==> !b
    {
      if available {
        return true;
      }
      if |memory| > BATCH_SIZE {
        available := true;
      }
      b := available;
    }

    /**
     * `random.sample(memory, k)`: `k` transitions from `k` distinct
     * positions. Which free position each draw takes is left open. The
     * source then regroups the draw into one `Transition`, which fails when
     * the draw is empty.
     */
    method Sample(k: nat) returns (r: SampleResult<T>)
      requires Valid()
      ensures r.SampleLargerThanPopulation? <==> k > |memory|
      ensures r.EmptyBatch? <==> k == 0
      ensures r.Sampled? <==> 0 < k <= |memory|
      ensures r.Sampled? ==>
        |r.positions| == k && |r.batch| == k && Distinct(r.positions) &&
        forall i :: 0 <= i < k ==> r.positions[i] < |memory| && r.batch[i] == memory[r.positions[i]]
    {
      if k > |memory| {
        return SampleLargerThanPopulation;
      }
      if k == 0 {
        return EmptyBatch;
      }
      var positions: seq<nat> := [];
      while |positions| < k
        invariant |positions| <= k
        invariant Distinct(positions)
        invariant forall i :: 0 <= i < |positions| ==> positions[i] < |memory|
      {
        FreePosition(positions, |memory|);
        var j :| 0 <= j < |memory| && j !in positions;
        positions := positions + [j];
      }
      var stored := memory;
      var batch := seq(k, i requires 0 <= i < k => stored[positions[i]]);
      r := Sampled(positions, batch);
    }
  }

  /**
   * The end-to-end eviction scenario: a memory of capacity 3 that is given
   * five transitions keeps exactly the last three, in order.
   */
  method EvictionScenario<T(!new)>(t1: T, t2: T, t3: T, t4: T, t5: T) returns (kept: seq<T>)
    ensures kept == [t3, t4, t5]
  {
    var m := new ReplayMemory<T>(3);
    m.Put(t1);
    m.Put(t2);
    m.Put(t3);
    m.Put(t4);
    m.Put(t5);
    kept := m.memory;
  }

  /**
   * Puts `items` one by one into a fresh memory, asking `IsAvailable` after
   * each put as the training loop does: the answer is false for the first
   * `BATCH_SIZE` puts and true from the next one on (when the capacity
   * allows more than `BATCH_SIZE` to be stored at all).
   */
  method PutAndPoll<T(!new)>(capacity: nat, items: seq<T>) returns (polls: seq<bool>)
    ensures |polls| == |items|
    ensures forall i :: 0 <= i < |items| ==> (polls[i] <==> capacity > BATCH_SIZE && i >= BATCH_SIZE)
  {
    var m := new ReplayMemory<T>(capacity);
    polls := [];
    for i := 0 to |items|
      invariant m.Valid() && m.capacity == capacity
      invariant m.history == items[..i]
      invariant |polls| == i
      invariant forall j :: 0 <= j < i ==> (polls[j] <==> capacity > BATCH_SIZE && j >= BATCH_SIZE)
    {
      m.Put(items[i]);
      assert m.history == items[..i + 1];
      var b := m.IsAvailable();
      assert b <==> capacity > BATCH_SIZE && i >= BATCH_SIZE;
      polls := polls + [b];
    }
  }
}
