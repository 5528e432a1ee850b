/** The priority index behind the prioritised replay buffer, seen through
    what the buffer uses of it: `capacity` non-negative leaves (`levels[-1]`)
    whose total (`levels[0][0]`) is their sum, point and batched writes, and
    the descent that draws a leaf. The tree levels themselves are not part
    of this model; a tree whose internal nodes hold the sums of their
    children exposes exactly this view. */
module SumTree {
  import opened Reals
  import opened Transitions

  /** A fresh `SumTree(capacity)`: every leaf holds priority 0. */
  function Fresh(capacity: nat): (leaves: seq<real>)
    ensures |leaves| == capacity && AllNonNegative(leaves) && Total(leaves) == 0.0
  {
    Zeros(capacity)
  }

  /** The root value `levels[0][0]`: the whole priority mass. */
  function Total(leaves: seq<real>): real {
    Sum(leaves)
  }

  /** `set(index, priority)` overwrites one leaf; the root changes by the
      difference, and nothing else changes. */
  function Set(leaves: seq<real>, index: nat, priority: real): (r: seq<real>)
    requires index < |leaves|
    ensures |r| == |leaves| && r[index] == priority
    ensures forall k :: 0 <= k < |leaves| && k != index ==> r[k] == leaves[k]
    ensures Total(r) == Total(leaves) - leaves[index] + priority
  {
    SumUpdate(leaves, index, priority);
    leaves[index := priority]
  }

  /** The position of the last occurrence of `k` in `indices`, if any. */
  function LastWrite(indices: seq<nat>, k: nat): (r: Option<nat>)
    ensures r.Some? ==> r.value < |indices| && indices[r.value] == k
    ensures r.Some? ==> forall j :: r.value < j < |indices| ==> indices[j] != k
    ensures r.None? ==> forall j :: 0 <= j < |indices| ==> indices[j] != k
  {
    if indices == [] then None
    else if indices[|indices| - 1] == k then Some(|indices| - 1)
    else LastWrite(indices[..|indices| - 1], k)
  }

  /** `batch_set(indices, priorities)`: the writes applied in order, so a
      repeated index keeps its last priority. A priority without a matching
      index is not written. */
  function BatchSet(leaves: seq<real>, indices: seq<nat>, priorities: seq<real>): (r: seq<real>)
    requires |indices| <= |priorities|
    requires forall j :: 0 <= j < |indices| ==> indices[j] < |leaves|
    ensures |r| == |leaves|
    ensures AllNonNegative(leaves) && AllNonNegative(priorities) ==> AllNonNegative(r)
    decreases |indices|
  {
    if indices == [] then leaves
    else BatchSet(Set(leaves, indices[0], priorities[0]), indices[1..], priorities[1..])
  }

  /** After `batch_set`, each leaf holds the priority of the last write to
      it, or its old priority when no index names it. */
  lemma {:induction false} BatchSetAt(leaves: seq<real>, indices: seq<nat>, priorities: seq<real>, k: nat)
    requires |indices| <= |priorities|
    requires forall j :: 0 <= j < |indices| ==> indices[j] < |leaves|
    requires k < |leaves|
    ensures BatchSet(leaves, indices, priorities)[k] ==
              match LastWrite(indices, k)
              case Some(j) => priorities[j]
              case None => leaves[k]
    decreases |indices|
  {
    if indices != [] {
      var first := Set(leaves, indices[0], priorities[0]);
      BatchSetAt(first, indices[1..], priorities[1..], k);
      LastWriteOfTail(indices, k);
    }
  }

  /** Dropping the first index shifts the last write of `k` down by one,
      unless that first index was the only write of `k`. */
  lemma {:induction false} LastWriteOfTail(indices: seq<nat>, k: nat)
    requires indices != []
    ensures match LastWrite(indices[1..], k)
            case Some(j) => LastWrite(indices, k) == Some(j + 1)
            case None => LastWrite(indices, k) == if indices[0] == k then Some(0) else None
  {
    var tail := indices[1..];
    match LastWrite(tail, k)
    case Some(j) =>
      assert indices[j + 1] == k;
      var r := LastWrite(indices, k);
      assert r.Some? && r.value >= j + 1;
    case None =>
      forall j | 1 <= j < |indices| ensures indices[j] != k {
        assert indices[j] == tail[j - 1];
      }
      var r := LastWrite(indices, k);
      if indices[0] == k {
        assert r.Some?;
      }
  }

  /** `update_priorities([i], [p])` followed by reading leaf i gives p. */
  lemma SingleWriteRoundTrip(leaves: seq<real>, i: nat, p: real)
    requires i < |leaves|
    ensures BatchSet(leaves, [i], [p])[i] == p
  {
    BatchSetAt(leaves, [i], [p], i);
  }

  /** Applying the same batch of writes twice changes nothing the first
      application did not: re-sending priorities is harmless. */
  lemma BatchSetIdempotent(leaves: seq<real>, indices: seq<nat>, priorities: seq<real>)
    requires |indices| <= |priorities|
    requires forall j :: 0 <= j < |indices| ==> indices[j] < |leaves|
    ensures BatchSet(BatchSet(leaves, indices, priorities), indices, priorities)
              == BatchSet(leaves, indices, priorities)
  {
    var once := BatchSet(leaves, indices, priorities);
    var twice := BatchSet(once, indices, priorities);
    forall k | 0 <= k < |leaves| ensures twice[k] == once[k] {
      BatchSetAt(leaves, indices, priorities, k);
      BatchSetAt(once, indices, priorities, k);
    }
  }

  /** Leaves a descent from the root may end in: proportional descent
      (stratified or simple) never ends in a leaf of priority 0. */
  predicate AllDrawable(leaves: seq<real>, draws: seq<nat>) {
    forall k :: 0 <= k < |draws| ==> draws[k] < |leaves| && leaves[draws[k]] > 0.0
  }

  /** A tree with a drawable leaf has positive total mass, so the
      probabilities `p_i / total` are well defined. */
  lemma DrawableMeansPositiveTotal(leaves: seq<real>, draws: seq<nat>)
    requires AllNonNegative(leaves)
    requires draws != [] && AllDrawable(leaves, draws)
    ensures Total(leaves) >= leaves[draws[0]] > 0.0
  {
    SumAtLeastTerm(leaves, draws[0]);
  }
}
