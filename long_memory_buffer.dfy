/** The long-term episode memory: a bounded store that keeps the episodes
    with the highest total rewards. It appends while not full; once full, a
    new episode replaces the tracked lowest-reward entry only when its
    reward is strictly larger, and the evicted episode is remembered. */
module LongMemory {
  import opened Transitions

  /** A stored experience `(episode_id, total_reward, ...)`. */
  datatype Episode = Episode(id: int, reward: real, rest: seq<Value>)

  /** A reward bound that may be `float('inf')`. */
  datatype Bound = Infinity | Finite(value: real)

  /** `min(bound, reward)` with `inf` above every reward. */
  function MinBound(b: Bound, reward: real): (m: Bound)
    ensures m.Finite? && m.value <= reward
    ensures b.Finite? ==> m.value <= b.value
    ensures m.value == reward || m == b
  {
    match b
    case Infinity => Finite(reward)
    case Finite(v) => if reward < v then Finite(reward) else b
  }

  /** `reward > bound`: never true of `inf`. */
  predicate Exceeds(reward: real, b: Bound) {
    b.Finite? && reward > b.value
  }

  /** The lowest reward stored, `inf` when nothing is stored, accumulated
      in insertion order. */
  function LowestReward(entries: seq<Episode>): (b: Bound)
    ensures b.Infinity? <==> entries == []
    ensures b.Finite? ==> forall k :: 0 <= k < |entries| ==> b.value <= entries[k].reward
    ensures b.Finite? ==> exists k :: 0 <= k < |entries| && entries[k].reward == b.value
  {
    if entries == [] then Infinity
    else
      var front := entries[..|entries| - 1];
      assert forall k :: 0 <= k < |front| ==> front[k] == entries[k];
      MinBound(LowestReward(front), entries[|entries| - 1].reward)
  }

  /** Appending an episode lowers the bound to its reward when that is
      smaller: the running minimum `add` keeps while filling. */
  lemma LowestRewardOfAppend(entries: seq<Episode>, e: Episode)
    ensures LowestReward(entries + [e]) == MinBound(LowestReward(entries), e.reward)
  {
    assert (entries + [e])[..|entries|] == entries;
  }

  /** `min(entries, key=lambda x: x[1])`: the first episode of lowest
      reward (Python's `min` keeps the earlier of equal keys). */
  function MinByReward(entries: seq<Episode>): (m: Episode)
    requires entries != []
    ensures m in entries
    ensures forall k :: 0 <= k < |entries| ==> m.reward <= entries[k].reward
  {
    if |entries| == 1 then entries[0]
    else
      var rest := MinByReward(entries[1..]);
      if rest.reward < entries[0].reward then rest else entries[0]
  }

  /** `entries.index(e)`: the position of the first element equal to e. */
  function IndexOf(entries: seq<Episode>, e: Episode): (i: nat)
    requires e in entries
    ensures i < |entries| && entries[i] == e
    ensures forall k :: 0 <= k < i ==> entries[k] != e
  {
    if entries[0] == e then 0
    else
      assert e in entries[1..];
      1 + IndexOf(entries[1..], e)
  }

  /** Position i holds a lowest reward, and no earlier position does. */
  predicate IsFirstMin(entries: seq<Episode>, i: int) {
    && 0 <= i < |entries|
    && (forall k :: 0 <= k < |entries| ==> entries[i].reward <= entries[k].reward)
    && (forall k :: 0 <= k < i ==> entries[k].reward > entries[i].reward)
  }

  /** `min` with a key returns the entry at the first lowest reward. */
  lemma {:induction false} MinByRewardIsFirst(entries: seq<Episode>)
    requires entries != []
    ensures exists i :: IsFirstMin(entries, i) && entries[i] == MinByReward(entries)
  {
    if |entries| == 1 {
      assert IsFirstMin(entries, 0);
    } else {
      var rest := entries[1..];
      MinByRewardIsFirst(rest);
      var j :| IsFirstMin(rest, j) && rest[j] == MinByReward(rest);
      if MinByReward(rest).reward < entries[0].reward {
        assert IsFirstMin(entries, j + 1) by {
          forall k | 0 < k < |entries| ensures entries[j + 1].reward <= entries[k].reward {
            assert entries[k] == rest[k - 1];
          }
          forall k | 0 < k < j + 1 ensures entries[k].reward > entries[j + 1].reward {
            assert entries[k] == rest[k - 1];
          }
        }
      } else {
        assert IsFirstMin(entries, 0) by {
          forall k | 0 < k < |entries| ensures entries[0].reward <= entries[k].reward {
            assert entries[k] == rest[k - 1];
          }
        }
      }
    }
  }

  /** `update_min_reward` finds the right slot: the index of the entry
      `min` returns is the first position holding the lowest reward, the
      reward found there is the lowest reward, and the first lowest
      position is unique. */
  lemma IndexOfMinIsFirstMin(entries: seq<Episode>)
    requires entries != []
    ensures IsFirstMin(entries, IndexOf(entries, MinByReward(entries)))
    ensures LowestReward(entries) == Finite(MinByReward(entries).reward)
    ensures forall i, j :: IsFirstMin(entries, i) && IsFirstMin(entries, j) ==> i == j
  {
    MinByRewardIsFirst(entries);
    var m := MinByReward(entries);
    var i :| IsFirstMin(entries, i) && entries[i] == m;
    var x := IndexOf(entries, m);
    assert x <= i;
    var b := LowestReward(entries);
    var k :| 0 <= k < |entries| && entries[k].reward == b.value;
    assert m.reward <= b.value;
  }

  /** Replacing any entry with an episode whose reward exceeds the lowest
      reward never lowers the lowest reward: the buffer's worst episode can
      only get better. */
  lemma ReplacementNeverLowersMinimum(entries: seq<Episode>, slot: nat, e: Episode)
    requires slot < |entries| && Exceeds(e.reward, LowestReward(entries))
    ensures LowestReward(entries[slot := e]).value >= LowestReward(entries).value
  {
    var after := entries[slot := e];
    var low := LowestReward(after);
    var k :| 0 <= k < |after| && after[k].reward == low.value;
    if k != slot {
      assert after[k] == entries[k];
    }
  }

  /** The slot a replacement writes: `memory_buffers[min_index]`, where
      Python's index -1 is the last entry. */
  function TargetSlot(minIndex: int, length: nat): (slot: nat)
    requires length > 0 && -1 <= minIndex < length
    ensures slot < length
    ensures minIndex == -1 ==> slot == length - 1
    ensures minIndex >= 0 ==> slot == minIndex
  {
    if minIndex == -1 then length - 1 else minIndex
  }

  /** After the buffer filled without replacements, `min_index` is still -1,
      so the first replacement overwrites the newest entry, whatever its
      reward, and records that entry as evicted. With two entries of
      rewards 5 and 10 and a new episode of reward 7, the episode of
      reward 10 is the one replaced. */
  lemma FirstReplacementHitsNewest()
    ensures var entries := [Episode(1, 5.0, []), Episode(2, 10.0, [])];
            && Exceeds(7.0, LowestReward(entries))
            && TargetSlot(-1, |entries|) == 1
            && entries[TargetSlot(-1, |entries|)].reward == 10.0
            && !IsFirstMin(entries, TargetSlot(-1, |entries|))
  {
    var entries := [Episode(1, 5.0, []), Episode(2, 10.0, [])];
    assert LowestReward(entries[..1]) == Finite(5.0);
  }

  class LongMemoryBuffer {
    const maxCapacity: nat
    /** The deque, oldest entry first. */
    var entries: seq<Episode>
    var minReward: Bound
    var minIndex: int
    var replacedId: Option<int>
    var replacedReward: real

    ghost predicate Valid()
      reads this
    {
      && |entries| <= maxCapacity
      && minReward == LowestReward(entries)
      && -1 <= minIndex < |entries|
      // min_index is only set by a replacement, which needs a full buffer
      && (minIndex != -1 ==> |entries| == maxCapacity && IsFirstMin(entries, minIndex))
      && (replacedId.None? <==> minIndex == -1)
      && (replacedId.None? ==> replacedReward == -1.0)
    }

    /** The state `__init__` leaves. */
    ghost predicate Initial()
      reads this
    {
      && entries == [] && minReward == Infinity && minIndex == -1
      && replacedId == None && replacedReward == -1.0
    }

    constructor (capacity: nat)
      ensures Valid() && Initial() && maxCapacity == capacity
    {
      maxCapacity := capacity;
      entries := [];
      minReward := Infinity;
      replacedId := None;
      replacedReward := -1.0;
      minIndex := -1;
    }

    /** `is_full`. */
    function IsFull(): (full: bool)
      reads this
      requires Valid()
      ensures full <==> |entries| == maxCapacity
    {
      |entries| >= maxCapacity
    }

    /** `get_length`: never above the capacity. */
    function GetLength(): (n: nat)
      reads this
      requires Valid()
      ensures n == |entries| && n <= maxCapacity
    {
      |entries|
    }

    /** `get_min_reward`: the lowest stored reward, `inf` when empty. */
    function GetMinReward(): (b: Bound)
      reads this
      requires Valid()
      ensures b == LowestReward(entries)
      ensures b.Infinity? <==> entries == []
    {
      minReward
    }

    /** `get_replaced_episode_id_reward`: `(None, -1)` until the first
        replacement, then the id and reward of the last evicted episode. */
    function GetReplacedEpisodeIdReward(): (pair: (Option<int>, real))
      reads this
      requires Valid()
      ensures pair.0.None? ==> pair.1 == -1.0
      ensures pair.0.None? <==> minIndex == -1
    {
      (replacedId, replacedReward)
    }

    /** `update_min_reward`: recomputes the lowest reward and its first
        position from the stored entries (`inf` and -1 when empty). */
    method UpdateMinReward()
      modifies this`minReward, this`minIndex
      ensures entries == [] ==> minReward == Infinity && minIndex == -1
      ensures entries != [] ==> minReward == LowestReward(entries) && IsFirstMin(entries, minIndex)
    {
      if entries != [] {
        var minEntry := MinByReward(entries);
        minReward := Finite(minEntry.reward);
        minIndex := IndexOf(entries, minEntry);
        IndexOfMinIsFirstMin(entries);
      } else {
        minReward := Infinity;
        minIndex := -1;
      }
    }

    /** `add`: appends while not full, lowering the running minimum; once
        full, replaces the entry at `min_index` (the newest entry while it
        is still -1) when the new reward is strictly above the minimum,
        records the evicted id and reward, and recomputes the minimum. */
    method Add(experience: Episode)
      requires Valid()
      modifies this
      ensures Valid()
      ensures |old(entries)| < maxCapacity ==>
                && entries == old(entries) + [experience]
                && minReward == MinBound(old(minReward), experience.reward)
                && minIndex == old(minIndex) && replacedId == old(replacedId) && replacedReward == old(replacedReward)
      ensures |old(entries)| == maxCapacity && !Exceeds(experience.reward, old(minReward)) ==>
                && entries == old(entries) && minReward == old(minReward) && minIndex == old(minIndex)
                && replacedId == old(replacedId) && replacedReward == old(replacedReward)
      ensures |old(entries)| == maxCapacity && Exceeds(experience.reward, old(minReward)) ==>
                && old(entries) != []
                && var slot := TargetSlot(old(minIndex), |old(entries)|);
                && replacedId == Some(old(entries)[slot].id)
                && replacedReward == old(entries)[slot].reward
                && entries == old(entries)[slot := experience]
                && minReward == LowestReward(entries)
                && IsFirstMin(entries, minIndex)
    {
      var episodeReward := experience.reward;
      if IsFull() {
        if Exceeds(episodeReward, minReward) {
          var slot := TargetSlot(minIndex, |entries|);
          replacedId := Some(entries[slot].id);
          replacedReward := entries[slot].reward;
          entries := entries[slot := experience];
          UpdateMinReward();
        }
      } else {
        LowestRewardOfAppend(entries, experience);
        entries := entries + [experience];
        minReward := MinBound(minReward, episodeReward);
      }
    }

    /** `sample_uniform`: the ids and rewards of `batch_size` entries at
        distinct positions, the first ones of `order` (a random permutation
        of the positions). `random.sample` raises for a batch larger than
        the buffer, and unpacking the empty result of a zero batch raises
        too. */
    function SampleUniform(batchSize: nat, order: seq<nat>): (r: Result<(seq<int>, seq<real>)>)
      reads this
      requires IsPermutationOfRange(order, |entries|)
      ensures r == Err(SampleLargerThanPopulation) <==> batchSize > |entries|
      ensures r == Err(EmptyReduction) <==> batchSize == 0
      ensures r.Ok? ==>
                && 0 < batchSize <= |entries|
                && Distinct(order[..batchSize])
                && |r.value.0| == batchSize && |r.value.1| == batchSize
                && forall k :: 0 <= k < batchSize ==>
                     r.value.0[k] == entries[order[k]].id && r.value.1[k] == entries[order[k]].reward
    {
      if batchSize > |entries| then Err(SampleLargerThanPopulation)
      else if batchSize == 0 then Err(EmptyReduction)
      else
        var picks, stored := order[..batchSize], entries;
        assert forall k :: 0 <= k < batchSize ==> picks[k] == order[k];
        assert Distinct(picks);
        Ok((seq(batchSize, k requires 0 <= k < batchSize => stored[picks[k]].id),
            seq(batchSize, k requires 0 <= k < batchSize => stored[picks[k]].reward)))
    }
  }
}
