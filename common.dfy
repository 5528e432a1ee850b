/** Values stored in the replay buffers, Python's view of them, and the
    failure kinds the buffers' operations can end in. */
module Transitions {

  datatype Option<T> = None | Some(value: T)

  /** Why a buffer operation raises instead of returning a batch. */
  datatype Error =
    | EmptyReduction               // .max() or torch.min of a zero-size array, torch.vstack([]), or unpacking an empty zip
    | SampleLargerThanPopulation   // random.sample(population, k) with k > len(population) or k < 0
    | DegenerateTree               // descending a sum tree whose total mass is 0
    | NotTerminated                // a retry loop that never collects enough candidates
    | NonIntegerIndices            // indexing a column with `np.array([])`, whose type is float

  datatype Result<T> = Ok(value: T) | Err(error: Error)

  datatype Outcome = Pass | Fail(error: Error)

  /** One field of a stored transition, as the buffers' columns hold it. */
  datatype Value =
    | Null               // Python None: a pre-allocated slot never written
    | Bool(b: bool)      // a Python bool, such as the done flag
    | Num(x: real)       // a scalar, such as the reward
    | Vec(xs: seq<real>) // a vector, such as a state or an action

  /** Python's truth value of a field (`not done` reads it); a vector is
      read as a list is, true when it is non-empty. */
  predicate Truthy(v: Value) {
    match v
    case Null => false
    case Bool(b) => b
    case Num(x) => x != 0.0
    case Vec(xs) => |xs| > 0
  }

  /** `x is False` in Python: only the bool False itself. */
  predicate IsFalse(v: Value) {
    v == Bool(false)
  }

  /** No element occurs twice. */
  predicate Distinct(s: seq<nat>) {
    forall i, j :: 0 <= i < j < |s| ==> s[i] != s[j]
  }

  /** A full random permutation of range(m); `random.sample(range(m), k)` is
      distributed as the first k elements of one. */
  predicate IsPermutationOfRange(p: seq<nat>, m: nat) {
    |p| == m && Distinct(p) && forall k :: 0 <= k < |p| ==> p[k] < m
  }

  /** The elements of `col` at `indices`, in the order of `indices`
      (NumPy's `col[indices]`). */
  function Gather<T>(col: seq<T>, indices: seq<nat>): (r: seq<T>)
    requires forall k :: 0 <= k < |indices| ==> indices[k] < |col|
    ensures |r| == |indices| && forall k :: 0 <= k < |indices| ==> r[k] == col[indices[k]]
  {
    seq(|indices|, k requires 0 <= k < |indices| => col[indices[k]])
  }

  /** `Gather` applied to every column. */
  function GatherAll<T>(cols: seq<seq<T>>, indices: seq<nat>): (r: seq<seq<T>>)
    requires forall j, k :: 0 <= j < |cols| && 0 <= k < |indices| ==> indices[k] < |cols[j]|
    ensures |r| == |cols| && forall j :: 0 <= j < |cols| ==> r[j] == Gather(cols[j], indices)
  {
    seq(|cols|, j requires 0 <= j < |cols| => Gather(cols[j], indices))
  }

  /** Every index shifted by one (NumPy's `indices + 1`). */
  function Successors(indices: seq<nat>): (r: seq<nat>)
    ensures |r| == |indices| && forall k :: 0 <= k < |indices| ==> r[k] == indices[k] + 1
  {
    seq(|indices|, k requires 0 <= k < |indices| => indices[k] + 1)
  }

  /** The length of the shortest row, 0 when there are no rows: how many
      tuples `zip(*rows)` yields. */
  function Width<T>(rows: seq<seq<T>>): (w: nat)
    ensures forall k :: 0 <= k < |rows| ==> w <= |rows[k]|
    ensures rows != [] ==> exists k :: 0 <= k < |rows| && w == |rows[k]|
    ensures rows == [] ==> w == 0
  {
    if rows == [] then 0
    else if |rows| == 1 then |rows[0]|
    else
      var rest := Width(rows[1..]);
      assert forall k :: 1 <= k < |rows| ==> rows[1..][k - 1] == rows[k];
      if |rows[0]| <= rest then |rows[0]| else rest
  }

  /** `zip(*rows)`: field f of the result lists field f of every row,
      for every field that all rows have. */
  function Transpose<T>(rows: seq<seq<T>>): (cols: seq<seq<T>>)
    ensures |cols| == Width(rows)
    ensures forall f :: 0 <= f < |cols| ==> |cols[f]| == |rows|
    ensures forall f, k :: 0 <= f < |cols| && 0 <= k < |rows| ==> cols[f][k] == rows[k][f]
  {
    var w := Width(rows);
    seq(w, f requires 0 <= f < w => seq(|rows|, k requires 0 <= k < |rows| => rows[k][f]))
  }

  /** Rows that all have the same number of fields. */
  predicate Rectangular<T>(rows: seq<seq<T>>, width: nat) {
    forall k :: 0 <= k < |rows| ==> |rows[k]| == width
  }

  /** Transposing twice gives back a non-empty batch of equally long rows:
      what `flush` and `sample` return holds exactly the stored fields. */
  lemma TransposeTwice<T>(rows: seq<seq<T>>, width: nat)
    requires rows != [] && width > 0 && Rectangular(rows, width)
    ensures Transpose(Transpose(rows)) == rows
  {
    var cols := Transpose(rows);
    var w := Width(rows);
    assert w == width by {
      var k :| 0 <= k < |rows| && w == |rows[k]|;
    }
    assert Rectangular(cols, |rows|);
    var back := Transpose(cols);
    assert Width(cols) == |rows| by {
      var f :| 0 <= f < |cols| && Width(cols) == |cols[f]|;
    }
    assert |back| == |rows|;
    forall k | 0 <= k < |rows|
      ensures back[k] == rows[k]
    {
      assert |back[k]| == |cols| == |rows[k]|;
      forall f | 0 <= f < |rows[k]|
        ensures back[k][f] == rows[k][f]
      {
        assert back[k][f] == cols[f][k];
      }
    }
  }

  /** A repetition-free sequence whose elements all lie in `pool` is no
      longer than `pool` is large. */
  lemma {:induction false} DistinctWithin(s: seq<nat>, pool: set<nat>)
    requires Distinct(s)
    requires forall k :: 0 <= k < |s| ==> s[k] in pool
    ensures |s| <= |pool|
  {
    if s != [] {
      var rest := s[1..];
      assert Distinct(rest) by {
        forall i, j | 0 <= i < j < |rest| ensures rest[i] != rest[j] {
          assert rest[i] == s[i + 1] && rest[j] == s[j + 1];
        }
      }
      forall k | 0 <= k < |rest| ensures rest[k] in pool - {s[0]} {
        assert rest[k] == s[k + 1] && s[k + 1] != s[0];
      }
      DistinctWithin(rest, pool - {s[0]});
    }
  }
}
