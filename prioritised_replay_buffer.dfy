/** The prioritised replay buffer: a fixed-capacity circular store of
    transitions, one pre-allocated column per transition field, with a sum
    tree of priorities over its slots. Fields are stored in the order
    state, action, reward, next_state, done, then any extra fields. */
module PrioritisedReplay {
  import opened Transitions
  import opened Reals
  import SumTree

  /** The exponentiation `x ** e` the buffer uses for `max_priority ** alpha`
      and for the importance weights is kept abstract; all the model relies
      on is that a positive base gives a positive power. */
  ghost predicate PositivePower(power: (real, real) -> real) {
    forall x, e :: x > 0.0 ==> power(x, e) > 0.0
  }

  const InitialMaxPriority: real := 1.0
  const InitialBeta: real := 0.4
  /** The amount `beta` is annealed by on every priority sample. */
  const BetaIncrement: real := 0.0000002
  /** The constant added to a priority before it is inverted. */
  const InverseEpsilon: real := 0.000001
  /** The column that holds the done flag. */
  const DoneField: nat := 4

  /** What a sampler returns: the sampled fields, column by column, the
      slot indices they came from, and one weight per sample (empty for
      the samplers that return none). */
  datatype Batch = Batch(columns: seq<seq<Value>>, indices: seq<nat>, weights: seq<real>)

  /** `np.array([None] * capacity)`: a freshly created column. */
  function Blank(capacity: nat): (col: seq<Value>)
    ensures |col| == capacity && forall k :: 0 <= k < capacity ==> col[k] == Null
  {
    seq(capacity, k => Null)
  }

  function Larger(a: nat, b: nat): nat {
    if a >= b then a else b
  }

  /** Column j as `add` finds it: the existing column, or a blank one when
      the experience has more fields than there are columns. */
  function ColumnOrBlank(cols: seq<seq<Value>>, j: nat, capacity: nat): (col: seq<Value>)
    requires forall i :: 0 <= i < |cols| ==> |cols[i]| == capacity
    ensures |col| == capacity
  {
    if j < |cols| then cols[j] else Blank(capacity)
  }

  /** The columns after `add` writes `experience` at slot `pointer`: a
      column is created, blank, for every field beyond the existing ones,
      and field j of the experience is written at the pointer in column j. */
  function AddColumns(cols: seq<seq<Value>>, experience: seq<Value>, pointer: nat, capacity: nat): (r: seq<seq<Value>>)
    requires pointer < capacity
    requires forall j :: 0 <= j < |cols| ==> |cols[j]| == capacity
    ensures |r| == Larger(|cols|, |experience|)
    ensures forall j :: 0 <= j < |r| ==> |r[j]| == capacity
  {
    var n := Larger(|cols|, |experience|);
    seq(n, j requires 0 <= j < n =>
      if j < |experience| then ColumnOrBlank(cols, j, capacity)[pointer := experience[j]]
      else ColumnOrBlank(cols, j, capacity))
  }

  /** `add` changes exactly one slot per field: the slot at the write
      pointer holds the new field, every other slot keeps its value, and a
      column the experience does not reach is untouched. */
  lemma AddChangesOnlyPointerSlot(cols: seq<seq<Value>>, experience: seq<Value>, pointer: nat, capacity: nat, j: nat, k: nat)
    requires pointer < capacity
    requires forall i :: 0 <= i < |cols| ==> |cols[i]| == capacity
    requires j < Larger(|cols|, |experience|) && k < capacity
    ensures AddColumns(cols, experience, pointer, capacity)[j][k] ==
              if k == pointer && j < |experience| then experience[j]
              else if j < |cols| then cols[j][k]
              else Null
  {
    var col := ColumnOrBlank(cols, j, capacity);
    assert AddColumns(cols, experience, pointer, capacity)[j] ==
           if j < |experience| then col[pointer := experience[j]] else col;
  }

  /** The columns with one more, blank, column when `index` is past the
      last one. */
  function WithColumn(cols: seq<seq<Value>>, index: nat, capacity: nat): (r: seq<seq<Value>>)
    requires index <= |cols|
    ensures |r| == if index < |cols| then |cols| else |cols| + 1
    ensures forall j :: 0 <= j < |cols| ==> r[j] == cols[j]
    ensures index == |cols| ==> r[index] == Blank(capacity)
  {
    if index < |cols| then cols else cols + [Blank(capacity)]
  }

  /** One turn of the loop in `add`: field `index` is written into its
      column, the column being created first when needed. */
  lemma AddColumnsStep(cols: seq<seq<Value>>, experience: seq<Value>, index: nat, pointer: nat, capacity: nat)
    requires pointer < capacity && index < |experience|
    requires forall j :: 0 <= j < |cols| ==> |cols[j]| == capacity
    ensures var mid := AddColumns(cols, experience[..index], pointer, capacity);
            index <= |mid| &&
            var grown := WithColumn(mid, index, capacity);
            AddColumns(cols, experience[..index + 1], pointer, capacity)
              == grown[index := grown[index][pointer := experience[index]]]
  {
    var mid := AddColumns(cols, experience[..index], pointer, capacity);
    var grown := WithColumn(mid, index, capacity);
    var lhs := AddColumns(cols, experience[..index + 1], pointer, capacity);
    var rhs := grown[index := grown[index][pointer := experience[index]]];
    assert |lhs| == |rhs|;
    forall j | 0 <= j < |lhs| ensures lhs[j] == rhs[j] {
      if j == index {
        assert grown[index] == ColumnOrBlank(cols, j, capacity);
      } else {
        assert rhs[j] == mid[j];
      }
    }
  }

  /** The slot the t-th transition (counting from 0) is written to: t
      modulo the capacity, computed by repeatedly wrapping around. */
  function Slot(t: nat, capacity: nat): (s: nat)
    requires capacity > 0
    ensures s < capacity
  {
    if t < capacity then t else Slot(t - capacity, capacity)
  }

  /** For a pointer below the capacity, `(p + 1) % capacity` is p + 1, or
      0 at the end of the buffer. */
  lemma WrapIsRemainder(p: nat, capacity: nat)
    requires p < capacity
    ensures (p + 1) % capacity == if p + 1 == capacity then 0 else p + 1
  {
  }

  /** The write pointer moves on by one slot and wraps to 0 at the capacity:
      `(tree_pointer + 1) % max_capacity` keeps it equal to the slot of the
      next transition. */
  lemma {:induction false} PointerAdvance(t: nat, capacity: nat)
    requires capacity > 0
    ensures Slot(t + 1, capacity) == if Slot(t, capacity) + 1 == capacity then 0 else Slot(t, capacity) + 1
    ensures Slot(t + 1, capacity) == (Slot(t, capacity) + 1) % capacity
  {
    if t >= capacity {
      PointerAdvance(t - capacity, capacity);
    }
    WrapIsRemainder(Slot(t, capacity), capacity);
  }

  /** The columns after adding `es`, in order, to an empty buffer. */
  function Filled(es: seq<seq<Value>>, capacity: nat): (r: seq<seq<Value>>)
    requires capacity > 0
    ensures forall j :: 0 <= j < |r| ==> |r[j]| == capacity
    ensures forall t :: 0 <= t < |es| ==> |es[t]| <= |r|
  {
    if es == [] then []
    else
      var before := Filled(es[..|es| - 1], capacity);
      assert forall t :: 0 <= t < |es| - 1 ==> es[..|es| - 1][t] == es[t];
      AddColumns(before, es[|es| - 1], Slot(|es| - 1, capacity), capacity)
  }

  /** Two different positions less than `capacity` apart never share a slot. */
  lemma {:induction false} NearbyPositionsDiffer(t: nat, m: nat, capacity: nat)
    requires capacity > 0 && t < m < t + capacity
    ensures Slot(t, capacity) != Slot(m, capacity)
  {
    if t >= capacity {
      NearbyPositionsDiffer(t - capacity, m - capacity, capacity);
    } else if m >= capacity {
      assert m - capacity < capacity;
      assert Slot(m, capacity) == m - capacity;
    }
  }

  /** Circular overwrite: after adding `es` to an empty buffer, each of the
      last `capacity` transitions is found, field by field, in its slot;
      older ones have been overwritten. */
  lemma {:induction false} LastTransitionsKept(es: seq<seq<Value>>, capacity: nat, t: nat, j: nat)
    requires capacity > 0
    requires t < |es| && |es| <= t + capacity
    requires j < |es[t]|
    ensures Filled(es, capacity)[j][Slot(t, capacity)] == es[t][j]
  {
    var m := |es| - 1;
    var before := Filled(es[..m], capacity);
    AddChangesOnlyPointerSlot(before, es[m], Slot(m, capacity), capacity, j, Slot(t, capacity));
    if t < m {
      NearbyPositionsDiffer(t, m, capacity);
      assert es[..m][t] == es[t];
      LastTransitionsKept(es[..m], capacity, t, j);
    }
  }

  /** `x ** e` falls as x grows, for a negative exponent: what makes rarely
      drawn transitions weigh more. */
  ghost predicate DecreasingPower(power: (real, real) -> real) {
    forall x, y, e :: 0.0 < x <= y && e < 0.0 ==> power(y, e) <= power(x, e)
  }

  /** The raw importance-sampling weight `(P(i) * N) ** (-beta)` with
      `P(i) = p_i / total`. */
  function RawWeight(priority: real, total: real, size: nat, beta: real, power: (real, real) -> real): real
    requires total > 0.0
  {
    power(priority / total * (size as real), -beta)
  }

  /** A drawn slot's scaled probability `p_i / total * N` is positive, and
      grows with its priority. */
  lemma ScaledProbability(p: real, q: real, total: real, size: nat)
    requires 0.0 < p <= q && total > 0.0 && size > 0
    ensures 0.0 < p / total * (size as real) <= q / total * (size as real)
  {
    DivisionKeepsOrder(p, q, total);
    var n := size as real;
    assert p / total * n <= q / total * n by {
      assert n > 0.0 && p / total <= q / total;
    }
  }

  /** The raw weights of the drawn slots: all positive. */
  function RawWeights(leaves: seq<real>, draws: seq<nat>, size: nat, beta: real, power: (real, real) -> real): (raw: seq<real>)
    requires AllNonNegative(leaves) && draws != []
    requires SumTree.AllDrawable(leaves, draws)
    requires size > 0 && PositivePower(power)
    ensures |raw| == |draws| && forall k :: 0 <= k < |raw| ==> raw[k] > 0.0
    ensures SumTree.Total(leaves) > 0.0 &&
            forall k :: 0 <= k < |raw| ==> raw[k] == RawWeight(leaves[draws[k]], SumTree.Total(leaves), size, beta, power)
  {
    SumTree.DrawableMeansPositiveTotal(leaves, draws);
    var total := SumTree.Total(leaves);
    assert forall k :: 0 <= k < |draws| ==> RawWeight(leaves[draws[k]], total, size, beta, power) > 0.0 by {
      forall k | 0 <= k < |draws| ensures RawWeight(leaves[draws[k]], total, size, beta, power) > 0.0 {
        ScaledProbability(leaves[draws[k]], leaves[draws[k]], total, size);
      }
    }
    seq(|draws|, k requires 0 <= k < |draws| => RawWeight(leaves[draws[k]], total, size, beta, power))
  }

  /** Every element divided by `d`. */
  function Scale(xs: seq<real>, d: real): (r: seq<real>)
    requires d > 0.0
    ensures |r| == |xs| && forall k :: 0 <= k < |xs| ==> r[k] == xs[k] / d
  {
    seq(|xs|, k requires 0 <= k < |xs| => xs[k] / d)
  }

  /** Dividing by a positive constant keeps the order of every pair. */
  lemma ScaleKeepsOrder(xs: seq<real>, d: real)
    requires d > 0.0
    ensures forall i, j :: 0 <= i < |xs| && 0 <= j < |xs| ==> (Scale(xs, d)[i] <= Scale(xs, d)[j] <==> xs[i] <= xs[j])
  {
    var w := Scale(xs, d);
    forall i, j | 0 <= i < |xs| && 0 <= j < |xs| ensures (w[i] <= w[j] <==> xs[i] <= xs[j]) {
      DivisionKeepsOrder(xs[i], xs[j], d);
    }
  }

  /** Positive elements divided by their maximum lie in (0, 1]. */
  lemma ScaleByMaxBounds(xs: seq<real>)
    requires xs != [] && forall k :: 0 <= k < |xs| ==> xs[k] > 0.0
    ensures Max(xs) > 0.0
    ensures forall k :: 0 <= k < |xs| ==> 0.0 < Scale(xs, Max(xs))[k] <= 1.0
    ensures exists k :: 0 <= k < |xs| && Scale(xs, Max(xs))[k] == 1.0
  {
    var top := Max(xs);
    assert top >= xs[0] > 0.0;
    var w := Scale(xs, top);
    forall k | 0 <= k < |xs| ensures 0.0 < w[k] <= 1.0 {
      UnitFraction(xs[k], top);
    }
    var k :| 0 <= k < |xs| && xs[k] == top;
    SelfDivision(top);
    assert w[k] == 1.0;
  }

  /** `weights /= weights.max()` on positive weights: every weight lies in
      (0, 1], the largest is exactly 1, and the order is kept. */
  function NormalizeByMax(raw: seq<real>): (w: seq<real>)
    requires raw != [] && forall k :: 0 <= k < |raw| ==> raw[k] > 0.0
    ensures |w| == |raw|
    ensures forall k :: 0 <= k < |w| ==> 0.0 < w[k] <= 1.0
    ensures exists k :: 0 <= k < |w| && w[k] == 1.0
    ensures forall i, j :: 0 <= i < |w| && 0 <= j < |w| ==> (w[i] <= w[j] <==> raw[i] <= raw[j])
  {
    ScaleByMaxBounds(raw);
    ScaleKeepsOrder(raw, Max(raw));
    Scale(raw, Max(raw))
  }

  /** The importance weights `sample_priority` returns for the drawn slots. */
  function ImportanceWeights(leaves: seq<real>, draws: seq<nat>, size: nat, beta: real, power: (real, real) -> real): (w: seq<real>)
    requires AllNonNegative(leaves) && draws != []
    requires SumTree.AllDrawable(leaves, draws)
    requires size > 0 && PositivePower(power)
    ensures |w| == |draws|
    ensures forall k :: 0 <= k < |w| ==> 0.0 < w[k] <= 1.0
    ensures exists k :: 0 <= k < |w| && w[k] == 1.0
  {
    NormalizeByMax(RawWeights(leaves, draws, size, beta, power))
  }

  /** Importance weights correct for the sampling bias: of two drawn slots,
      the one with the lower priority (drawn less often) never gets the
      lower weight, and equal priorities give equal weights. */
  lemma RarerSlotsWeighMore(leaves: seq<real>, draws: seq<nat>, size: nat, beta: real, power: (real, real) -> real, i: nat, j: nat)
    requires AllNonNegative(leaves) && draws != []
    requires SumTree.AllDrawable(leaves, draws)
    requires size > 0 && PositivePower(power) && DecreasingPower(power) && beta > 0.0
    requires i < |draws| && j < |draws| && leaves[draws[i]] <= leaves[draws[j]]
    ensures ImportanceWeights(leaves, draws, size, beta, power)[j] <= ImportanceWeights(leaves, draws, size, beta, power)[i]
  {
    var raw := RawWeights(leaves, draws, size, beta, power);
    var total := SumTree.Total(leaves);
    ScaledProbability(leaves[draws[i]], leaves[draws[j]], total, size);
    assert raw[j] <= raw[i];
    assert ImportanceWeights(leaves, draws, size, beta, power) == NormalizeByMax(raw);
  }

  /** A positive number divided by one at least as large lies in (0, 1]. */
  lemma UnitFraction(x: real, top: real)
    requires 0.0 < x <= top
    ensures 0.0 < x / top <= 1.0
  {
    assert x / top * top == x;
  }

  lemma SelfDivision(d: real)
    requires d > 0.0
    ensures d / d == 1.0
  {
  }

  lemma DivisionKeepsOrder(a: real, b: real, d: real)
    requires d > 0.0
    ensures a / d <= b / d <==> a <= b
    ensures a > 0.0 ==> a / d > 0.0
  {
    assert a / d * d == a && b / d * d == b;
  }

  /** Dividing a non-negative number by a larger divisor never gives more. */
  lemma DivideByLarger(top: real, a: real, b: real)
    requires top >= 0.0 && 0.0 < b <= a
    ensures top / a <= top / b
  {
    var x, y := top / a, top / b;
    assert x * a == top && y * b == top;
    assert x * b <= x * a;
  }

  /** `beta` after a priority sample: it never decreases and never passes 1. */
  function AnnealedBeta(beta: real): (b: real)
    requires beta <= 1.0
    ensures beta <= b <= 1.0
    ensures b == 1.0 || b == beta + BetaIncrement
  {
    if beta + BetaIncrement < 1.0 then beta + BetaIncrement else 1.0
  }

  /** The inverted priorities `total / (p_i + 1e-6)` of the first `size` slots. */
  function InversePriorities(leaves: seq<real>, size: nat): (inv: seq<real>)
    requires size <= |leaves| && AllNonNegative(leaves)
    ensures |inv| == size && AllNonNegative(inv)
  {
    var top := SumTree.Total(leaves);
    assert top >= 0.0 by {
      if leaves != [] { SumAtLeastTerm(leaves, 0); }
    }
    seq(size, k requires 0 <= k < size => top / (leaves[k] + InverseEpsilon))
  }

  /** Inversion reverses the order of priorities: a slot with a higher
      priority gets a lower (never higher) inverse priority, so the slot
      holding the buffer's highest priority is the least likely draw. */
  lemma InversionReversesOrder(leaves: seq<real>, size: nat, i: nat, j: nat)
    requires size <= |leaves| && AllNonNegative(leaves)
    requires i < size && j < size
    requires leaves[i] >= leaves[j]
    ensures InversePriorities(leaves, size)[i] <= InversePriorities(leaves, size)[j]
  {
    var top := SumTree.Total(leaves);
    SumAtLeastTerm(leaves, i);
    DivideByLarger(top, leaves[i] + InverseEpsilon, leaves[j] + InverseEpsilon);
  }

  /** The range 0, 1, ..., n - 1 (`np.arange(n)`). */
  function Range(n: nat): (r: seq<nat>)
    ensures |r| == n && forall k :: 0 <= k < n ==> r[k] == k
  {
    seq(n, k requires 0 <= k < n => k)
  }

  /** The leaves of the temporary tree `sample_inverse_priority` builds:
      `batch_set(arange(tree_pointer), inverse priorities of slots
      [0, current_size))`. */
  function InverseLeaves(leaves: seq<real>, pointer: nat, size: nat): (r: seq<real>)
    requires pointer <= size <= |leaves| && AllNonNegative(leaves)
    ensures |r| == |leaves| && AllNonNegative(r)
  {
    SumTree.BatchSet(SumTree.Fresh(|leaves|), Range(pointer), InversePriorities(leaves, size))
  }

  /** Only slots below `tree_pointer` receive an inverse priority, so only
      they can be drawn. Once the buffer has wrapped this excludes the
      written slots from `tree_pointer` to `current_size - 1`. */
  lemma InverseLeavesBelowPointer(leaves: seq<real>, pointer: nat, size: nat, k: nat)
    requires pointer <= size <= |leaves| && AllNonNegative(leaves)
    requires k < |leaves|
    ensures InverseLeaves(leaves, pointer, size)[k] ==
              if k < pointer then InversePriorities(leaves, size)[k] else 0.0
  {
    SumTree.BatchSetAt(SumTree.Fresh(|leaves|), Range(pointer), InversePriorities(leaves, size), k);
    var w := SumTree.LastWrite(Range(pointer), k);
    if k < pointer {
      assert Range(pointer)[k] == k;
      assert w.Some? && w.value == k;
    } else {
      assert w.None?;
    }
  }

  /** Each column cut to its first `size` slots. */
  function Prefixes(cols: seq<seq<Value>>, size: nat): (r: seq<seq<Value>>)
    requires forall j :: 0 <= j < |cols| ==> size <= |cols[j]|
    ensures |r| == |cols| && forall j :: 0 <= j < |cols| ==> r[j] == cols[j][..size]
  {
    seq(|cols|, j requires 0 <= j < |cols| => cols[j][..size])
  }

  /** The non-terminal slots among the candidates `0 .. m-1`. */
  function NonTerminalSlots(done: seq<Value>, m: nat): set<nat>
    requires m <= |done|
  {
    set i: nat | i < m && !Truthy(done[i])
  }

  /** A completed consecutive sample needs as many non-terminal candidates
      as the batch is long; with fewer, the source's retry loop never ends. */
  lemma ConsecutiveNeedsEnoughCandidates(done: seq<Value>, m: nat, sampled: seq<nat>)
    requires m <= |done| && Distinct(sampled)
    requires forall k :: 0 <= k < |sampled| ==> sampled[k] < m && !Truthy(done[sampled[k]])
    ensures |sampled| <= |NonTerminalSlots(done, m)|
  {
    DistinctWithin(sampled, NonTerminalSlots(done, m));
  }

  class PrioritizedReplayBuffer {
    const maxCapacity: nat
    const alpha: real
    const power: (real, real) -> real

    var currentSize: nat
    var treePointer: nat
    /** One pre-allocated column per field, created on the first add. */
    var memoryBuffers: seq<array<Value>>
    /** The leaves of the sum tree, one per slot. */
    var leaves: seq<real>
    var maxPriority: real
    var beta: real

    ghost var Repr: set<object>

    /** The columns are separate arrays of `max_capacity` slots each, all
        owned by the buffer. */
    ghost predicate ColumnsFramed()
      reads this, Repr
    {
      && this in Repr
      && (forall j :: 0 <= j < |memoryBuffers| ==> memoryBuffers[j] in Repr && memoryBuffers[j].Length == maxCapacity)
      && (forall i, j :: 0 <= i < j < |memoryBuffers| ==> memoryBuffers[i] != memoryBuffers[j])
    }

    ghost predicate Valid()
      reads this, Repr
    {
      && ColumnsFramed()
      && 0 < maxCapacity
      && treePointer < maxCapacity && currentSize <= maxCapacity
      && (currentSize < maxCapacity ==> treePointer == currentSize)
      && (currentSize == 0 <==> memoryBuffers == [])
      && (currentSize > 0 ==> |memoryBuffers| > DoneField)
      && |leaves| == maxCapacity && AllNonNegative(leaves)
      && maxPriority >= InitialMaxPriority
      && InitialBeta <= beta <= 1.0
      && PositivePower(power)
    }

    /** The contents of the columns. */
    ghost function Columns(): (cols: seq<seq<Value>>)
      reads this, memoryBuffers
      ensures |cols| == |memoryBuffers|
      ensures forall j :: 0 <= j < |memoryBuffers| ==> cols[j] == memoryBuffers[j][..]
    {
      seq(|memoryBuffers|, j requires 0 <= j < |memoryBuffers| reads this, memoryBuffers => memoryBuffers[j][..])
    }

    /** The state `__init__` and `clear` leave: nothing stored, a fresh tree. */
    ghost predicate Cleared()
      reads this
    {
      && treePointer == 0 && currentSize == 0
      && memoryBuffers == []
      && leaves == SumTree.Fresh(maxCapacity)
      && maxPriority == InitialMaxPriority && beta == InitialBeta
    }

    constructor (capacity: nat, alpha: real, power: (real, real) -> real)
      requires capacity > 0 && PositivePower(power)
      ensures Valid() && fresh(Repr) && Cleared()
      ensures maxCapacity == capacity && this.alpha == alpha && this.power == power
    {
      maxCapacity := capacity;
      this.alpha := alpha;
      this.power := power;
      currentSize, treePointer := 0, 0;
      memoryBuffers := [];
      leaves := SumTree.Fresh(capacity);
      maxPriority, beta := InitialMaxPriority, InitialBeta;
      Repr := {this};
    }

    /** `__len__`: the number of valid slots, never more than the capacity. */
    function Length(): (n: nat)
      reads this, Repr
      requires Valid()
      ensures n == currentSize && n <= maxCapacity
    {
      currentSize
    }

    /** `add`: writes each field of the experience at the write pointer
        (creating the columns on first use), gives the slot the priority
        `max_priority ** alpha`, advances the pointer circularly and grows
        the size up to the capacity. */
    method Add(experience: seq<Value>)
      requires Valid()
      requires |experience| > DoneField
      modifies Repr
      ensures Valid() && fresh(Repr - old(Repr))
      ensures Columns() == AddColumns(old(Columns()), experience, old(treePointer), maxCapacity)
      ensures leaves == SumTree.Set(old(leaves), old(treePointer), power(maxPriority, alpha))
      ensures treePointer == (old(treePointer) + 1) % maxCapacity
      ensures currentSize == if old(currentSize) + 1 < maxCapacity then old(currentSize) + 1 else maxCapacity
      ensures maxPriority == old(maxPriority) && beta == old(beta)
    {
      ghost var before := Columns();
      var pointer := treePointer;
      for index := 0 to |experience|
        invariant ColumnsFramed() && old(Repr) <= Repr && fresh(Repr - old(Repr))
        invariant Columns() == AddColumns(before, experience[..index], pointer, maxCapacity)
        invariant treePointer == pointer && currentSize == old(currentSize)
        invariant leaves == old(leaves) && maxPriority == old(maxPriority) && beta == old(beta)
      {
        AddColumnsStep(before, experience, index, pointer, maxCapacity);
        ProvideColumn(index);
        WriteField(index, pointer, experience[index]);
      }
      assert experience[..|experience|] == experience;
      var newPriority := power(maxPriority, alpha);
      leaves := SumTree.Set(leaves, treePointer, newPriority);
      treePointer := (treePointer + 1) % maxCapacity;
      currentSize := if currentSize + 1 < maxCapacity then currentSize + 1 else maxCapacity;
      WrapIsRemainder(pointer, maxCapacity);
    }

    /** The first step of writing field `index`: the column is created,
        blank, if it does not exist yet. */
    method ProvideColumn(index: nat)
      requires ColumnsFramed() && 0 < maxCapacity && index <= |memoryBuffers|
      modifies this`memoryBuffers, this`Repr
      ensures ColumnsFramed() && old(Repr) <= Repr && fresh(Repr - old(Repr))
      ensures Columns() == WithColumn(old(Columns()), index, maxCapacity)
    {
      if index == |memoryBuffers| {
        var memory := new Value[maxCapacity](k => Null);
        assert memory[..] == Blank(maxCapacity);
        memoryBuffers := memoryBuffers + [memory];
        Repr := Repr + {memory};
      }
    }

    /** `memory_buffers[index][pointer] = value`: one slot of one column. */
    method WriteField(index: nat, pointer: nat, value: Value)
      requires ColumnsFramed() && index < |memoryBuffers| && pointer < maxCapacity
      modifies memoryBuffers[index]
      ensures ColumnsFramed()
      ensures Columns() == old(Columns())[index := old(Columns())[index][pointer := value]]
    {
      memoryBuffers[index][pointer] := value;
    }

    /** The fields at `indices`, column by column (`buffer[indices]` for
        every column). */
    method Extract(indices: seq<nat>) returns (cols: seq<seq<Value>>)
      requires Valid()
      requires forall k :: 0 <= k < |indices| ==> indices[k] < maxCapacity
      ensures cols == GatherAll(Columns(), indices)
    {
      cols := [];
      for j := 0 to |memoryBuffers|
        invariant |cols| == j
        invariant forall f :: 0 <= f < j ==> cols[f] == Gather(memoryBuffers[f][..], indices)
      {
        cols := cols + [Gather(memoryBuffers[j][..], indices)];
      }
    }

    /** `sample_uniform`: the batch is cut to at most the stored size and the
        `draws` (NumPy's `randint(current_size)` values) pick the slots. */
    method SampleUniform(batchSize: nat, draws: seq<nat>) returns (b: Batch)
      requires Valid()
      requires |draws| == if batchSize <= currentSize then batchSize else currentSize
      requires forall k :: 0 <= k < |draws| ==> draws[k] < currentSize
      ensures |b.indices| <= batchSize && |b.indices| <= currentSize
      ensures forall k :: 0 <= k < |b.indices| ==> b.indices[k] < currentSize
      ensures b.indices == draws && b.weights == []
      ensures b.columns == GatherAll(Columns(), b.indices)
    {
      var cols := Extract(draws);
      b := Batch(cols, draws, []);
    }

    /** `sample_priority`: the slots come from a descent of the sum tree
        (`draws`, stratified or simple); the weights are the importance
        weights divided by their maximum, and `beta` is annealed. A descent
        of a tree whose total is 0 finds no leaf, as for the inverse tree;
        an empty batch fails at `weights.max()`. Neither failure changes
        `beta`. */
    method SamplePriority(batchSize: nat, draws: seq<nat>) returns (r: Result<Batch>)
      requires Valid()
      requires var n := if batchSize <= currentSize then batchSize else currentSize;
               |draws| == if SumTree.Total(leaves) > 0.0 then n else 0
      requires SumTree.AllDrawable(leaves, draws)
      modifies this`beta
      ensures Valid()
      ensures r.Err? <==> draws == []
      ensures var n := if batchSize <= currentSize then batchSize else currentSize;
              r.Ok? <==> n > 0 && SumTree.Total(leaves) > 0.0
      ensures var n := if batchSize <= currentSize then batchSize else currentSize;
              r.Err? ==> r.error == (if n == 0 then EmptyReduction else DegenerateTree) && beta == old(beta)
      ensures r.Ok? ==>
                && r.value.indices == draws
                && r.value.columns == GatherAll(Columns(), draws)
                && r.value.weights == ImportanceWeights(leaves, draws, currentSize, old(beta), power)
                && beta == AnnealedBeta(old(beta))
    {
      var n := if batchSize <= currentSize then batchSize else currentSize;
      SumAtLeastTerm(leaves, 0);
      if n > 0 && SumTree.Total(leaves) == 0.0 {
        return Err(DegenerateTree);
      }
      if draws == [] {
        return Err(EmptyReduction);
      }
      SumTree.DrawableMeansPositiveTotal(leaves, draws);
      var weights := ImportanceWeights(leaves, draws, currentSize, beta, power);
      beta := AnnealedBeta(beta);
      var cols := Extract(draws);
      r := Ok(Batch(cols, draws, weights));
    }

    /** `sample_inverse_priority`: builds a temporary tree over the inverted
        priorities and draws from it (`draws`); the weights returned are the
        inverted priorities of the drawn slots. */
    method SampleInversePriority(batchSize: nat, draws: seq<nat>) returns (r: Result<Batch>)
      requires Valid()
      requires var n := if batchSize <= currentSize then batchSize else currentSize;
               |draws| == if SumTree.Total(InverseLeaves(leaves, treePointer, currentSize)) > 0.0 then n else 0
      requires SumTree.AllDrawable(InverseLeaves(leaves, treePointer, currentSize), draws)
      ensures var n := if batchSize <= currentSize then batchSize else currentSize;
              r.Err? <==> n > 0 && SumTree.Total(InverseLeaves(leaves, treePointer, currentSize)) == 0.0
      ensures r.Err? ==> r.error == DegenerateTree
      ensures r.Ok? ==>
                && r.value.indices == draws
                && (forall k :: 0 <= k < |draws| ==> draws[k] < treePointer)
                && r.value.columns == GatherAll(Columns(), draws)
                && r.value.weights == Gather(InversePriorities(leaves, currentSize), draws)
    {
      var n := if batchSize <= currentSize then batchSize else currentSize;
      var reversed := InversePriorities(leaves, currentSize);
      var inverseTree := InverseLeaves(leaves, treePointer, currentSize);
      if n > 0 && SumTree.Total(inverseTree) == 0.0 {
        return Err(DegenerateTree);
      }
      forall k | 0 <= k < |draws| ensures draws[k] < treePointer {
        InverseLeavesBelowPointer(leaves, treePointer, currentSize, draws[k]);
      }
      var cols := Extract(draws);
      r := Ok(Batch(cols, draws, Gather(reversed, draws)));
    }

    /** `update_priorities`: raises `max_priority` to the largest new
        priority if that is larger, then writes the priorities into the
        tree; an empty batch fails at `priorities.max()` and changes
        nothing. */
    method UpdatePriorities(indices: seq<nat>, priorities: seq<real>) returns (r: Outcome)
      requires Valid()
      requires |indices| == |priorities| && AllNonNegative(priorities)
      requires forall k :: 0 <= k < |indices| ==> indices[k] < maxCapacity
      modifies this`maxPriority, this`leaves
      ensures Valid()
      ensures r.Fail? <==> priorities == []
      ensures r.Fail? ==> r.error == EmptyReduction && maxPriority == old(maxPriority) && leaves == old(leaves)
      ensures r.Pass? ==>
                && maxPriority == (if Max(priorities) > old(maxPriority) then Max(priorities) else old(maxPriority))
                && leaves == SumTree.BatchSet(old(leaves), indices, priorities)
    {
      if priorities == [] {
        return Fail(EmptyReduction);
      }
      var top := Max(priorities);
      maxPriority := if top > maxPriority then top else maxPriority;
      leaves := SumTree.BatchSet(leaves, indices, priorities);
      r := Pass;
    }

    /** `clear`: back to the state of a new buffer. */
    method Clear()
      requires Valid()
      modifies this
      ensures Valid() && Cleared() && Repr == {this}
    {
      treePointer, currentSize := 0, 0;
      memoryBuffers := [];
      leaves := SumTree.Fresh(maxCapacity);
      maxPriority, beta := InitialMaxPriority, InitialBeta;
      Repr := {this};
    }

    /** `flush`: every column's valid prefix, in slot order, then `clear`. */
    method Flush() returns (experiences: seq<seq<Value>>)
      requires Valid()
      modifies this
      ensures Valid() && Cleared() && Repr == {this}
      ensures experiences == Prefixes(old(Columns()), old(currentSize))
    {
      experiences := [];
      for j := 0 to |memoryBuffers|
        invariant |experiences| == j
        invariant forall f :: 0 <= f < j ==> experiences[f] == memoryBuffers[f][..currentSize]
      {
        experiences := experiences + [memoryBuffers[j][..currentSize]];
      }
      Clear();
    }

    /** `sample_consecutive`: collects distinct non-terminal slots `i` below
        `current_size - 1`, round after round, and returns the fields at
        each `i` followed by the fields at `i + 1`. Round r draws its
        still-needed count as the first elements of `rounds[r]`, a random
        permutation of the candidates. `random.sample` fails when the batch
        is longer than the candidates; when the rounds run out before the
        batch is full, the source would keep drawing. A batch of 0 from a
        non-empty buffer collects nothing, and indexing the columns with the
        resulting empty float array fails. */
    method SampleConsecutive(batchSize: nat, rounds: seq<seq<nat>>) returns (r: Result<Batch>)
      requires Valid()
      requires forall q :: 0 <= q < |rounds| ==>
                 IsPermutationOfRange(rounds[q], if currentSize > 0 then currentSize - 1 else 0)
      ensures r == Err(SampleLargerThanPopulation) <==> 1 <= currentSize <= batchSize
      ensures r == Err(NonIntegerIndices) <==> batchSize == 0 && currentSize >= 1
      ensures r.Err? ==> r.error in {SampleLargerThanPopulation, NonIntegerIndices, NotTerminated}
      ensures r.Ok? ==>
                var s := r.value.indices;
                && |s| == (if batchSize <= currentSize then batchSize else currentSize)
                && Distinct(s)
                && (forall k :: 0 <= k < |s| ==> s[k] + 1 < currentSize && !Truthy(Columns()[DoneField][s[k]]))
                && r.value.columns == GatherAll(Columns(), s) + GatherAll(Columns(), Successors(s))
                && r.value.weights == []
    {
      var n := if batchSize <= currentSize then batchSize else currentSize;
      var m := if currentSize > 0 then currentSize - 1 else 0;
      var sampled: seq<nat> := [];
      var round := 0;
      while |sampled| < n
        invariant 0 <= round <= |rounds|
        invariant |sampled| <= n && Distinct(sampled)
        invariant round == 0 ==> sampled == []
        invariant n > m ==> round == 0
        invariant forall k :: 0 <= k < |sampled| ==> sampled[k] < m && !Truthy(memoryBuffers[DoneField][sampled[k]])
        decreases |rounds| - round
      {
        var need := n - |sampled|;
        if need > m {
          return Err(SampleLargerThanPopulation);
        }
        if round == |rounds| {
          return Err(NotTerminated);
        }
        var idxs := rounds[round][..need];
        var done := memoryBuffers[DoneField];
        for pos := 0 to |idxs|
          invariant |sampled| <= n - need + pos && Distinct(sampled)
          invariant forall k :: 0 <= k < |sampled| ==> sampled[k] < m && !Truthy(done[sampled[k]])
        {
          var i := idxs[pos];
          if !Truthy(done[i]) && i !in sampled {
            sampled := sampled + [i];
          }
        }
        round := round + 1;
      }
      if sampled == [] && memoryBuffers != [] {
        return Err(NonIntegerIndices);
      }
      var now := Extract(sampled);
      var next := Extract(Successors(sampled));
      r := Ok(Batch(now + next, sampled, []));
    }
  }
}
