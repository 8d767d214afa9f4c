/** The tensor operations `sparsify` builds its buffers from: `torch.where`
    with a zero fill, `mask.nonzero()`, boolean-mask selection `w[mask]`,
    a sparse COO tensor and its densification, and the zero count reported
    by `num_zeros`. */
module Sparsity {
  import opened Matrices

  /** A buffer as registered on the layer: a dense (strided) tensor, or a
      sparse COO tensor given by its index list, its values and its shape. */
  datatype Tensor =
    | DenseTensor(entries: Matrix)
    | CooTensor(indices: seq<Index>, values: seq<real>, rows: nat, cols: nat)

  /** `torch.where(keep, w, 0.)`: the entries of `w` where `keep` holds, zero
      elsewhere, in `w`'s shape. */
  function Where(keep: Mask, w: Matrix): (r: Matrix)
    requires SameShape(w, keep)
    ensures SameShape(r, w)
    ensures forall i, j :: 0 <= i < |w| && 0 <= j < |w[i]| ==>
              r[i][j] == (if keep[i][j] then w[i][j] else 0.0)
  {
    seq(|w|, i requires 0 <= i < |w| =>
      seq(|w[i]|, j requires 0 <= j < |w[i]| => if keep[i][j] then w[i][j] else 0.0))
  }

  /** The positions of the `true` entries of row `i`, by increasing column. */
  function NonZeroRow(row: seq<bool>, i: nat): seq<Index>
  {
    if row == [] then []
    else NonZeroRow(row[..|row| - 1], i) + (if row[|row| - 1] then [(i, |row| - 1)] else [])
  }

  /** `mask.nonzero()`: the positions of the `true` entries, in row-major order. */
  function NonZero(m: Mask): seq<Index>
  {
    if m == [] then []
    else NonZero(m[..|m| - 1]) + NonZeroRow(m[|m| - 1], |m| - 1)
  }

  /** The entries of one row of `w` where `keep` holds, by increasing column. */
  function SelectRow(w: seq<real>, keep: seq<bool>): seq<real>
    requires |w| == |keep|
  {
    if keep == [] then []
    else SelectRow(w[..|w| - 1], keep[..|keep| - 1]) + (if keep[|keep| - 1] then [w[|w| - 1]] else [])
  }

  /** Boolean-mask indexing `w[keep]`: the entries where `keep` holds,
      flattened in row-major order. */
  function MaskedSelect(w: Matrix, keep: Mask): seq<real>
    requires SameShape(w, keep)
  {
    if keep == [] then []
    else MaskedSelect(w[..|w| - 1], keep[..|keep| - 1]) + SelectRow(w[|w| - 1], keep[|keep| - 1])
  }

  /** The value a COO tensor holds at `p`: the sum of the values listed at
      `p` (torch adds up duplicate indices), zero when `p` is not listed. */
  function Lookup(indices: seq<Index>, values: seq<real>, p: Index): real
    requires |indices| == |values|
  {
    if indices == [] then 0.0
    else (if indices[0] == p then values[0] else 0.0) + Lookup(indices[1..], values[1..], p)
  }

  /** `to_dense()` of a buffer: the matrix it stands for. */
  function ToDense(t: Tensor): Matrix
    requires t.CooTensor? ==> |t.indices| == |t.values|
  {
    match t
    case DenseTensor(entries) => entries
    case CooTensor(indices, values, rows, cols) =>
      seq(rows, i requires 0 <= i < rows =>
        seq(cols, j requires 0 <= j < cols => Lookup(indices, values, (i, j))))
  }

  /** `num_zeros`: each pruned complex weight contributes two zeros, one in
      its real part and one in its imaginary part. */
  function NumZeros(pruned: Mask): (n: nat)
    ensures n == 2 * |NonZero(pruned)|
  {
    NonZeroListsTrue(pruned);
    2 * CountTrue(pruned)
  }

  // ---------------------------------------------------------------------
  // What `nonzero` lists

  /** A row lists exactly its `true` columns, tagged with the row number,
      by strictly increasing column. */
  lemma {:induction false} NonZeroRowListsTrue(row: seq<bool>, i: nat)
    ensures forall p: Index :: p in NonZeroRow(row, i) <==> p.0 == i && p.1 < |row| && row[p.1]
    ensures StrictlyRowMajor(NonZeroRow(row, i))
    ensures |NonZeroRow(row, i)| == CountRow(row)
  {
    if row != [] {
      var n := |row|;
      var front := row[..n - 1];
      NonZeroRowListsTrue(front, i);
      forall p: Index ensures p in NonZeroRow(row, i) <==> p.0 == i && p.1 < n && row[p.1] {
        if p.1 < n - 1 {
          assert front[p.1] == row[p.1];
        }
      }
    }
  }

  /** `nonzero` lists exactly the positions holding `true`. */
  lemma {:induction false} NonZeroListsTrue(m: Mask)
    ensures forall p: Index :: p in NonZero(m) <==> InRange(m, p) && m[p.0][p.1]
    ensures |NonZero(m)| == CountTrue(m)
  {
    if m != [] {
      var n := |m|;
      var front := m[..n - 1];
      NonZeroListsTrue(front);
      NonZeroRowListsTrue(m[n - 1], n - 1);
      forall p: Index ensures p in NonZero(m) <==> InRange(m, p) && m[p.0][p.1] {
        if p.0 < n - 1 {
          assert front[p.0] == m[p.0];
        }
      }
    }
  }

  /** `nonzero` lists the positions in strictly increasing row-major order. */
  lemma {:induction false} NonZeroIsRowMajor(m: Mask)
    ensures StrictlyRowMajor(NonZero(m))
    ensures forall p: Index :: p in NonZero(m) ==> p.0 < |m|
  {
    if m != [] {
      var n := |m|;
      NonZeroIsRowMajor(m[..n - 1]);
      NonZeroRowListsTrue(m[n - 1], n - 1);
      var a, b := NonZero(m[..n - 1]), NonZeroRow(m[n - 1], n - 1);
      assert NonZero(m) == a + b;
      forall x, y | 0 <= x < y < |a + b| ensures RowMajorBefore((a + b)[x], (a + b)[y]) {
        if y < |a| {
        } else if x < |a| {
          assert a[x] in a && b[y - |a|] in b;
        } else {
        }
      }
      forall p: Index | p in NonZero(m) ensures p.0 < |m| {
        if p in a {
        } else {
          assert p in b;
        }
      }
    }
  }

  /** Selecting the kept entries of a row yields, position by position, the
      entries at the columns `nonzero` lists for that row. */
  lemma {:induction false} SelectRowFollowsNonZeroRow(w: seq<real>, keep: seq<bool>, i: nat)
    requires |w| == |keep|
    ensures |SelectRow(w, keep)| == |NonZeroRow(keep, i)|
    ensures forall k :: 0 <= k < |NonZeroRow(keep, i)| ==>
              NonZeroRow(keep, i)[k].1 < |w| && SelectRow(w, keep)[k] == w[NonZeroRow(keep, i)[k].1]
  {
    if keep != [] {
      var n := |keep|;
      SelectRowFollowsNonZeroRow(w[..n - 1], keep[..n - 1], i);
    }
  }

  /** `w[keep]` and `keep.nonzero()` enumerate the kept positions in the same
      order: the k-th selected value is the entry at the k-th listed index. */
  lemma {:induction false} MaskedSelectFollowsNonZero(w: Matrix, keep: Mask)
    requires SameShape(w, keep)
    ensures |MaskedSelect(w, keep)| == |NonZero(keep)|
    ensures forall k :: 0 <= k < |NonZero(keep)| ==>
              InRange(w, NonZero(keep)[k]) &&
              MaskedSelect(w, keep)[k] == w[NonZero(keep)[k].0][NonZero(keep)[k].1]
  {
    if keep != [] {
      var n := |keep|;
      MaskedSelectFollowsNonZero(w[..n - 1], keep[..n - 1]);
      SelectRowFollowsNonZeroRow(w[n - 1], keep[n - 1], n - 1);
      NonZeroRowListsTrue(keep[n - 1], n - 1);
      var a, b := NonZero(keep[..n - 1]), NonZeroRow(keep[n - 1], n - 1);
      forall k | 0 <= k < |NonZero(keep)|
        ensures InRange(w, NonZero(keep)[k])
        ensures MaskedSelect(w, keep)[k] == w[NonZero(keep)[k].0][NonZero(keep)[k].1]
      {
        if k >= |a| {
          assert b[k - |a|] in b;
        }
      }
    }
  }

  // ---------------------------------------------------------------------
  // Densifying a COO tensor

  /** A position not listed holds zero. */
  lemma {:induction false} LookupUnlisted(indices: seq<Index>, values: seq<real>, p: Index)
    requires |indices| == |values|
    requires p !in indices
    ensures Lookup(indices, values, p) == 0.0
  {
    if indices != [] {
      LookupUnlisted(indices[1..], values[1..], p);
    }
  }

  /** In a list without repetitions, the position listed k-th holds the k-th value. */
  lemma {:induction false} LookupListed(indices: seq<Index>, values: seq<real>, k: nat)
    requires |indices| == |values| && k < |indices|
    requires StrictlyRowMajor(indices)
    ensures Lookup(indices, values, indices[k]) == values[k]
  {
    if k == 0 {
      assert indices[0] !in indices[1..] by {
        forall q | q in indices[1..] ensures q != indices[0] {
          var y :| 0 <= y < |indices[1..]| && indices[1..][y] == q;
          assert RowMajorBefore(indices[0], indices[y + 1]);
        }
      }
      LookupUnlisted(indices[1..], values[1..], indices[0]);
    } else {
      assert RowMajorBefore(indices[0], indices[k]);
      LookupListed(indices[1..], values[1..], k - 1);
    }
  }

  /** One entry of the densified COO tensor built from `nonzero` and `w[keep]`. */
  lemma CooOfKeptAt(w: Matrix, keep: Mask, i: nat, j: nat)
    requires SameShape(w, keep) && InRange(w, (i, j))
    ensures |MaskedSelect(w, keep)| == |NonZero(keep)|
    ensures Lookup(NonZero(keep), MaskedSelect(w, keep), (i, j)) == if keep[i][j] then w[i][j] else 0.0
  {
    var indices, values := NonZero(keep), MaskedSelect(w, keep);
    NonZeroListsTrue(keep);
    MaskedSelectFollowsNonZero(w, keep);
    if keep[i][j] {
      assert (i, j) in indices;
      var k :| 0 <= k < |indices| && indices[k] == (i, j);
      NonZeroIsRowMajor(keep);
      LookupListed(indices, values, k);
    } else {
      LookupUnlisted(indices, values, (i, j));
    }
  }

  /** The COO tensor built from `nonzero` and `w[keep]` densifies to
      `torch.where(keep, w, 0.)`: both sparsified forms store the same matrix. */
  lemma CooOfKeptIsWhere(w: Matrix, keep: Mask, rows: nat, cols: nat)
    requires IsMatrix(w, rows, cols) && SameShape(w, keep)
    ensures |MaskedSelect(w, keep)| == |NonZero(keep)|
    ensures ToDense(CooTensor(NonZero(keep), MaskedSelect(w, keep), rows, cols)) == Where(keep, w)
  {
    MaskedSelectFollowsNonZero(w, keep);
    var d := ToDense(CooTensor(NonZero(keep), MaskedSelect(w, keep), rows, cols));
    var e := Where(keep, w);
    forall i, j | 0 <= i < rows && 0 <= j < cols
      ensures d[i][j] == e[i][j]
    {
      CooOfKeptAt(w, keep, i, j);
    }
    assert forall i | 0 <= i < rows :: d[i] == e[i];
  }

  /** Pruned and kept entries partition the matrix: twice the kept count plus
      `num_zeros` is twice the number of complex weights. */
  lemma NumZerosComplementsKept(pruned: Mask, rows: nat, cols: nat)
    requires IsMatrix(pruned, rows, cols)
    ensures NumZeros(pruned) + 2 * |NonZero(Not(pruned))| == 2 * rows * cols
  {
    var total := rows * cols;
    NonZeroListsTrue(Not(pruned));
    CountComplement(pruned, rows, cols);
    assert CountTrue(pruned) + |NonZero(Not(pruned))| == total;
    assert 2 * rows * cols == 2 * total;
  }
}
