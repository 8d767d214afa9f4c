/** Two-dimensional tensors as nested sequences, boolean masks over them,
    and the row-major order in which torch enumerates their positions. */
module Matrices {

  /** A real matrix, row by row. */
  type Matrix = seq<seq<real>>

  /** A boolean matrix, row by row. */
  type Mask = seq<seq<bool>>

  /** A (row, column) position. */
  type Index = (nat, nat)

  /** `m` has `rows` rows of `cols` entries each. */
  predicate IsMatrix<T>(m: seq<seq<T>>, rows: nat, cols: nat) {
    |m| == rows && forall i :: 0 <= i < |m| ==> |m[i]| == cols
  }

  /** `a` and `b` have the same number of rows and the same row lengths. */
  predicate SameShape<S, T>(a: seq<seq<S>>, b: seq<seq<T>>) {
    |a| == |b| && forall i :: 0 <= i < |a| ==> |a[i]| == |b[i]|
  }

  /** `p` is a position inside `m`. */
  predicate InRange<T>(m: seq<seq<T>>, p: Index) {
    p.0 < |m| && p.1 < |m[p.0]|
  }

  /** `p` comes strictly before `q` in row-major (C) order. */
  predicate RowMajorBefore(p: Index, q: Index) {
    p.0 < q.0 || (p.0 == q.0 && p.1 < q.1)
  }

  /** The positions are listed in strictly increasing row-major order
      (so, in particular, without repetition). */
  predicate StrictlyRowMajor(ps: seq<Index>) {
    forall a, b :: 0 <= a < b < |ps| ==> RowMajorBefore(ps[a], ps[b])
  }

  /** Elementwise logical negation, torch's `~mask`. */
  function Not(m: Mask): (r: Mask)
    ensures SameShape(r, m)
    ensures forall i, j :: 0 <= i < |m| && 0 <= j < |m[i]| ==> r[i][j] == !m[i][j]
  {
    seq(|m|, i requires 0 <= i < |m| => seq(|m[i]|, j requires 0 <= j < |m[i]| => !m[i][j]))
  }

  /** Number of `true` entries of one row. */
  function CountRow(row: seq<bool>): nat
  {
    if row == [] then 0
    else CountRow(row[..|row| - 1]) + (if row[|row| - 1] then 1 else 0)
  }

  /** Number of `true` entries of a mask, torch's `mask.sum()`. */
  function CountTrue(m: Mask): nat
  {
    if m == [] then 0
    else CountTrue(m[..|m| - 1]) + CountRow(m[|m| - 1])
  }

  /** Every entry of a row is counted exactly once, either as true or as
      false: the counts of a row and of its negation add up to its length. */
  lemma {:induction false} CountRowComplement(row: seq<bool>, neg: seq<bool>)
    requires |neg| == |row|
    requires forall j :: 0 <= j < |row| ==> neg[j] == !row[j]
    ensures CountRow(row) + CountRow(neg) == |row|
  {
    if row != [] {
      CountRowComplement(row[..|row| - 1], neg[..|neg| - 1]);
    }
  }

  /** A mask and its negation together count every entry once. */
  lemma {:induction false} CountComplement(m: Mask, rows: nat, cols: nat)
    requires IsMatrix(m, rows, cols)
    ensures CountTrue(m) + CountTrue(Not(m)) == rows * cols
  {
    if m != [] {
      var n := |m|;
      var front, notM := m[..n - 1], Not(m);
      assert notM[..n - 1] == Not(front) by {
        assert SameShape(notM[..n - 1], front);
      }
      CountComplement(front, rows - 1, cols);
      CountRowComplement(m[n - 1], notM[n - 1]);
      assert (rows - 1) * cols + cols == rows * cols by {
        assert (rows - 1) * cols == rows * cols - cols;
      }
    }
  }
}
