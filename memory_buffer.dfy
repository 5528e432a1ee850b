/** The plain replay memory: a bounded deque of transition tuples, sampled
    without replacement, in consecutive pairs, or flushed whole. */
module Memory {
  import opened Transitions

  /** The field that holds the done flag; a stored transition is
      `(state, action, reward, next_state, done, ...)`. */
  const DoneField: nat := 4
  const ActionField: nat := 1
  const RewardField: nat := 2

  /** The newest `capacity` elements of `s`: what a deque with
      `maxlen = capacity` holds after its elements were appended in order. */
  function Newest<T>(s: seq<T>, capacity: nat): (r: seq<T>)
    ensures |r| == if |s| <= capacity then |s| else capacity
    ensures r == s[|s| - |r|..]
  {
    if |s| <= capacity then s else s[|s| - capacity..]
  }

  /** `deque.append` with `maxlen = capacity`: the element goes on the
      right; when the deque is full the leftmost, oldest element drops out. */
  function Append<T>(buffer: seq<T>, e: T, capacity: nat): (r: seq<T>)
    requires |buffer| <= capacity
    ensures |r| == if |buffer| < capacity then |buffer| + 1 else capacity
    ensures capacity > 0 ==> r[|r| - 1] == e
    ensures |buffer| < capacity ==> r[..|buffer|] == buffer
    ensures 0 < |buffer| == capacity ==> r[..|r| - 1] == buffer[1..]
  {
    if |buffer| < capacity then buffer + [e] else (buffer + [e])[1..]
  }

  /** Appending the elements of `es` one at a time. */
  function AppendAll<T>(buffer: seq<T>, es: seq<T>, capacity: nat): (r: seq<T>)
    requires |buffer| <= capacity
    decreases |es|
  {
    if es == [] then buffer else AppendAll(Append(buffer, es[0], capacity), es[1..], capacity)
  }

  /** Keeping the newest elements before appending more keeps the same
      newest elements in the end. */
  lemma NewestOfNewest<T>(s: seq<T>, t: seq<T>, capacity: nat)
    ensures Newest(Newest(s, capacity) + t, capacity) == Newest(s + t, capacity)
  {
    if |s| > capacity {
      var a, b := Newest(Newest(s, capacity) + t, capacity), Newest(s + t, capacity);
      assert |a| == |b|;
      forall k | 0 <= k < |a| ensures a[k] == b[k] {
        var u := Newest(s, capacity) + t;
        assert a[k] == u[|u| - |a| + k];
        assert b[k] == (s + t)[|s| + |t| - |b| + k];
      }
    }
  }

  /** One append keeps the newest `capacity` elements. */
  lemma AppendIsNewest<T>(buffer: seq<T>, e: T, capacity: nat)
    requires |buffer| <= capacity
    ensures Append(buffer, e, capacity) == Newest(buffer + [e], capacity)
  {
  }

  /** A deque with `maxlen = capacity` holds the newest `capacity` of all
      the elements ever appended to it, in insertion order. */
  lemma {:induction false} AppendAllKeepsNewest<T>(buffer: seq<T>, es: seq<T>, capacity: nat)
    requires |buffer| <= capacity
    ensures AppendAll(buffer, es, capacity) == Newest(buffer + es, capacity)
    decreases |es|
  {
    if es == [] {
      assert buffer + es == buffer;
    } else {
      var next, grown := Append(buffer, es[0], capacity), buffer + [es[0]];
      assert grown + es[1..] == buffer + es;
      AppendIsNewest(buffer, es[0], capacity);
      AppendAllKeepsNewest(next, es[1..], capacity);
      NewestOfNewest(grown, es[1..], capacity);
    }
  }

  /** The rows of a consecutive sample: transition i followed by the action
      and the reward of transition i + 1. */
  function ConsecutiveRows(buffer: seq<seq<Value>>, indices: seq<nat>): (rows: seq<seq<Value>>)
    requires forall k :: 0 <= k < |indices| ==> indices[k] + 1 < |buffer| && |buffer[indices[k] + 1]| > RewardField
    ensures |rows| == |indices|
    ensures forall k :: 0 <= k < |indices| ==>
              var i := indices[k];
              && |rows[k]| == |buffer[i]| + 2
              && rows[k][..|buffer[i]|] == buffer[i]
              && rows[k][|buffer[i]|] == buffer[i + 1][ActionField]
              && rows[k][|buffer[i]| + 1] == buffer[i + 1][RewardField]
  {
    seq(|indices|, k requires 0 <= k < |indices| =>
      buffer[indices[k]] + [buffer[indices[k] + 1][ActionField], buffer[indices[k] + 1][RewardField]])
  }

  class MemoryBuffer {
    const maxCapacity: nat
    /** The deque, oldest transition first. */
    var buffer: seq<seq<Value>>

    ghost predicate Valid()
      reads this
    {
      |buffer| <= maxCapacity
    }

    constructor (capacity: nat)
      ensures Valid() && maxCapacity == capacity && buffer == []
    {
      maxCapacity := capacity;
      buffer := [];
    }

    /** `__len__`: the number of stored transitions, never above the capacity. */
    function Length(): (n: nat)
      reads this
      requires Valid()
      ensures n == |buffer| && n <= maxCapacity
    {
      |buffer|
    }

    /** `add`: appends the transition; a full buffer drops its oldest one. */
    method Add(experience: seq<Value>)
      requires Valid()
      modifies this
      ensures Valid() && buffer == Append(old(buffer), experience, maxCapacity)
    {
      buffer := Append(buffer, experience, maxCapacity);
    }

    /** `sample`: `min(batch_size, len)` transitions at distinct positions,
        transposed field by field. The positions are the first ones of
        `order`, a random permutation of the positions (`random.sample`). */
    function Sample(batchSize: nat, order: seq<nat>): (batch: seq<seq<Value>>)
      reads this
      requires IsPermutationOfRange(order, |buffer|)
      ensures var n := if batchSize <= |buffer| then batchSize else |buffer|;
              && Distinct(order[..n])
              && (forall k :: 0 <= k < n ==> |batch| <= |buffer[order[k]]|)
              && (forall f :: 0 <= f < |batch| ==> |batch[f]| == n)
              && (forall f, k :: 0 <= f < |batch| && 0 <= k < n ==> batch[f][k] == buffer[order[k]][f])
              && (n > 0 ==> exists k :: 0 <= k < n && |batch| == |buffer[order[k]]|)
              && (n == 0 ==> batch == [])
    {
      var n := if batchSize <= |buffer| then batchSize else |buffer|;
      var picks := Gather(buffer, order[..n]);
      assert n > 0 ==> picks != [];
      Transpose(picks)
    }

    /** When every transition has the same fields, a non-empty sample
        transposed back is exactly the picked transitions, in order. */
    lemma SampleHoldsPickedTransitions(batchSize: nat, order: seq<nat>, width: nat)
      requires IsPermutationOfRange(order, |buffer|)
      requires width > 0 && Rectangular(buffer, width)
      requires 0 < batchSize && buffer != []
      ensures var n := if batchSize <= |buffer| then batchSize else |buffer|;
              Transpose(Sample(batchSize, order)) == Gather(buffer, order[..n])
    {
      var n := if batchSize <= |buffer| then batchSize else |buffer|;
      var picks := Gather(buffer, order[..n]);
      TransposeTwice(picks, width);
    }

    /** `sample_consecutive`: the batch is cut to `len - 1`; round after
        round it draws the still-needed count from the candidates
        `0 .. len - 2` (the first elements of `rounds[r]`, a random
        permutation of them) and keeps each draw whose done flag `is False`
        and that was not kept before; the first round skips that duplicate
        check. An empty buffer asks `random.sample` for -1 elements, which
        raises; when the rounds run out before the batch is full, the source
        would keep drawing. */
    method SampleConsecutive(batchSize: nat, rounds: seq<seq<nat>>) returns (r: Result<seq<seq<Value>>>, ghost chosen: seq<nat>)
      requires Valid()
      requires forall k :: 0 <= k < |buffer| ==> |buffer[k]| > DoneField
      requires forall q :: 0 <= q < |rounds| ==> IsPermutationOfRange(rounds[q], if |buffer| > 0 then |buffer| - 1 else 0)
      ensures r == Err(SampleLargerThanPopulation) <==> buffer == []
      ensures r.Err? ==> r.error in {SampleLargerThanPopulation, NotTerminated}
      ensures r.Ok? ==>
                && |chosen| == (if batchSize <= |buffer| - 1 then batchSize else |buffer| - 1)
                && Distinct(chosen)
                && (forall k :: 0 <= k < |chosen| ==> chosen[k] + 1 < |buffer| && IsFalse(buffer[chosen[k]][DoneField]))
                && r.value == Transpose(ConsecutiveRows(buffer, chosen))
    {
      if buffer == [] {
        return Err(SampleLargerThanPopulation), [];
      }
      var maxLength := |buffer| - 1;
      var n := if batchSize <= maxLength then batchSize else maxLength;
      var sampled: seq<nat> := [];
      var firstSample := true;
      var round := 0;
      while |sampled| < n
        invariant 0 <= round <= |rounds|
        invariant |sampled| <= n && Distinct(sampled)
        invariant firstSample ==> sampled == []
        invariant forall k :: 0 <= k < |sampled| ==> sampled[k] < maxLength && IsFalse(buffer[sampled[k]][DoneField])
        decreases |rounds| - round
      {
        if round == |rounds| {
          return Err(NotTerminated), sampled;
        }
        var idxs := rounds[round][..n - |sampled|];
        ghost var start := |sampled|;
        for pos := 0 to |idxs|
          invariant |sampled| <= start + pos && Distinct(sampled)
          invariant firstSample ==> forall k :: 0 <= k < |sampled| ==> sampled[k] in idxs[..pos]
          invariant forall k :: 0 <= k < |sampled| ==> sampled[k] < maxLength && IsFalse(buffer[sampled[k]][DoneField])
        {
          var i := idxs[pos];
          var alreadySampled := false;
          if !firstSample {
            for t := 0 to |sampled|
              invariant alreadySampled <==> i in sampled[..t]
            {
              assert sampled[..t + 1] == sampled[..t] + [sampled[t]];
              if sampled[t] == i {
                alreadySampled := true;
              }
            }
            assert sampled[..|sampled|] == sampled;
          } else {
            assert i !in sampled;
          }
          if IsFalse(buffer[i][DoneField]) && !alreadySampled {
            sampled := sampled + [i];
          }
          if |sampled| == n {
            break;
          }
        }
        firstSample := false;
        round := round + 1;
      }
      r, chosen := Ok(Transpose(ConsecutiveRows(buffer, sampled))), sampled;
    }

    /** `flush`: every stored transition in insertion order, transposed
        field by field; the buffer is left empty. */
    method Flush() returns (experience: seq<seq<Value>>)
      requires Valid()
      modifies this
      ensures Valid() && buffer == []
      ensures experience == Transpose(old(buffer))
    {
      experience := Transpose(buffer);
      buffer := [];
    }

    /** `clear`: the buffer is left empty. */
    method Clear()
      requires Valid()
      modifies this
      ensures Valid() && buffer == []
    {
      buffer := [];
    }
  }

  /** A flushed non-empty buffer of equally long transitions can be rebuilt
      from the flushed columns: transposing them back gives the stored
      transitions in insertion order. */
  lemma FlushLosesNothing(buffer: seq<seq<Value>>, width: nat)
    requires buffer != [] && width > 0 && Rectangular(buffer, width)
    ensures Transpose(Transpose(buffer)) == buffer
    ensures |Transpose(buffer)| == width
  {
    TransposeTwice(buffer, width);
    var k :| 0 <= k < |buffer| && Width(buffer) == |buffer[k]|;
  }
}
