/** The complex variational-dropout linear layer `CplxLinearARD`: its
    sparsification state machine (`sparsify`), the choice of forward path,
    the reset of its log-variance, and `num_zeros`.

    The sparsity mask comes from `get_sparsity_mask(threshold)` of the
    base ARD layer, which is not part of this model: every operation that
    needs it takes the boolean `pruned` mask (true = prunable) it would
    return, of the weight's shape. */
module LinearARD {
  import opened Outcomes
  import opened Matrices
  import opened Sparsity

  /** The value `reset_variational_parameters` gives every log σ² entry:
      `uniform_(-10, -10)` has equal bounds, so it is the constant -10. */
  const LogSigma2Init: real := -10.0

  /** The recorded `sparsity_mode_`: `None`, "dense" or "sparse". */
  datatype SparsityMode = NoSparsity | Dense | Sparse

  /** The token that names each mode. */
  function ModeToken(m: SparsityMode): Option<string>
  {
    match m
    case NoSparsity => None
    case Dense => Some("dense")
    case Sparse => Some("sparse")
  }

  /** The mode a `mode` argument names; anything other than `None`, "dense"
      and "sparse" is a ValueError. */
  function ParseMode(mode: Option<string>): (r: Result<SparsityMode>)
    ensures r.Ok? <==> mode == None || mode == Some("dense") || mode == Some("sparse")
    ensures r.Ok? ==> ModeToken(r.value) == mode
    ensures r.Err? ==> r.error == ValueError
  {
    match mode
    case None => Ok(NoSparsity)
    case Some(t) =>
      if t == "dense" then Ok(Dense)
      else if t == "sparse" then Ok(Sparse)
      else Err(ValueError)
  }

  /** Every mode survives being written as its token and read back. */
  lemma ParseModeToken(m: SparsityMode)
    ensures ParseMode(ModeToken(m)) == Ok(m)
  {
  }

  /** The guards of `sparsify`, in their order: the mode is validated first
      (ValueError), then a non-`None` mode is refused while training
      (RuntimeError); otherwise the mode to record. */
  function AdmitSparsify(mode: Option<string>, training: bool): (r: Result<SparsityMode>)
    ensures r == Err(ValueError) <==> ParseMode(mode).Err?
    ensures r == Err(RuntimeError) <==> ParseMode(mode).Ok? && mode != None && training
    ensures r.Ok? <==> ParseMode(mode).Ok? && (mode == None || !training)
    ensures r.Ok? ==> ModeToken(r.value) == mode
  {
    match ParseMode(mode)
    case Err(e) => Err(e)
    case Ok(m) => if m != NoSparsity && training then Err(RuntimeError) else Ok(m)
  }

  /** The buffers `sparsify` registers for a mode, rebuilt from the current
      weight and mask alone: nothing for `NoSparsity` (they are deleted);
      `torch.where(keep, w, 0)` of each part for `Dense`; for `Sparse`, COO
      tensors sharing one index list `keep.nonzero()` with values
      `w.real[keep]` and `w.imag[keep]`. Here `keep` is `~pruned`. */
  function SparsifiedBuffers(mode: SparsityMode, wRe: Matrix, wIm: Matrix, pruned: Mask, rows: nat, cols: nat)
    : (Option<Tensor>, Option<Tensor>)
    requires IsMatrix(wRe, rows, cols) && IsMatrix(wIm, rows, cols) && IsMatrix(pruned, rows, cols)
  {
    var keep := Not(pruned);
    match mode
    case NoSparsity => (None, None)
    case Dense => (Some(DenseTensor(Where(keep, wRe))), Some(DenseTensor(Where(keep, wIm))))
    case Sparse =>
      var indices := NonZero(keep);
      (Some(CooTensor(indices, MaskedSelect(wRe, keep), rows, cols)),
       Some(CooTensor(indices, MaskedSelect(wIm, keep), rows, cols)))
  }

  /** A stored buffer has the weight's shape: a dense matrix of that shape,
      or a COO tensor of that declared shape listing one value per in-range
      index, in strictly row-major order. */
  predicate TensorFits(t: Tensor, rows: nat, cols: nat)
  {
    match t
    case DenseTensor(entries) => IsMatrix(entries, rows, cols)
    case CooTensor(indices, values, r, c) =>
      r == rows && c == cols && |values| == |indices| && StrictlyRowMajor(indices) &&
      forall k :: 0 <= k < |indices| ==> indices[k].0 < rows && indices[k].1 < cols
  }

  /** The buffers agree with the recorded mode: none without sparsification,
      two dense ones for `Dense`, two COO ones sharing their index list for
      `Sparse`, all of the weight's shape. */
  predicate BuffersFit(mode: SparsityMode, re: Option<Tensor>, im: Option<Tensor>, rows: nat, cols: nat)
  {
    match mode
    case NoSparsity => re.None? && im.None?
    case Dense =>
      re.Some? && im.Some? && re.value.DenseTensor? && im.value.DenseTensor? &&
      TensorFits(re.value, rows, cols) && TensorFits(im.value, rows, cols)
    case Sparse =>
      re.Some? && im.Some? && re.value.CooTensor? && im.value.CooTensor? &&
      re.value.indices == im.value.indices &&
      TensorFits(re.value, rows, cols) && TensorFits(im.value, rows, cols)
  }

  /** Mode "dense": both buffers have the weight's shape, every kept entry is
      the weight's entry, every pruned entry is zero. */
  lemma DenseBuffersMaskWeight(wRe: Matrix, wIm: Matrix, pruned: Mask, rows: nat, cols: nat)
    requires IsMatrix(wRe, rows, cols) && IsMatrix(wIm, rows, cols) && IsMatrix(pruned, rows, cols)
    ensures SparsifiedBuffers(Dense, wRe, wIm, pruned, rows, cols).0.Some?
    ensures SparsifiedBuffers(Dense, wRe, wIm, pruned, rows, cols).1.Some?
    ensures
      var re := SparsifiedBuffers(Dense, wRe, wIm, pruned, rows, cols).0.value;
      var im := SparsifiedBuffers(Dense, wRe, wIm, pruned, rows, cols).1.value;
      re.DenseTensor? && im.DenseTensor? &&
      IsMatrix(re.entries, rows, cols) && IsMatrix(im.entries, rows, cols) &&
      forall i, j :: 0 <= i < rows && 0 <= j < cols ==>
        re.entries[i][j] == (if pruned[i][j] then 0.0 else wRe[i][j]) &&
        im.entries[i][j] == (if pruned[i][j] then 0.0 else wIm[i][j])
  {
  }

  /** Mode "sparse": one index list, shared by both buffers, that holds
      exactly the kept positions in strictly row-major order; the value
      listed k-th is the weight's real (imaginary) part at the k-th index;
      the declared shape is the weight's. */
  lemma SparseBuffersListKept(wRe: Matrix, wIm: Matrix, pruned: Mask, rows: nat, cols: nat)
    requires IsMatrix(wRe, rows, cols) && IsMatrix(wIm, rows, cols) && IsMatrix(pruned, rows, cols)
    ensures SparsifiedBuffers(Sparse, wRe, wIm, pruned, rows, cols).0.Some?
    ensures SparsifiedBuffers(Sparse, wRe, wIm, pruned, rows, cols).1.Some?
    ensures
      var re := SparsifiedBuffers(Sparse, wRe, wIm, pruned, rows, cols).0.value;
      var im := SparsifiedBuffers(Sparse, wRe, wIm, pruned, rows, cols).1.value;
      re.CooTensor? && im.CooTensor? && re.indices == im.indices &&
      re.rows == rows && re.cols == cols && im.rows == rows && im.cols == cols &&
      StrictlyRowMajor(re.indices) &&
      (forall p: Index :: p in re.indices <==> p.0 < rows && p.1 < cols && !pruned[p.0][p.1]) &&
      |re.values| == |re.indices| && |im.values| == |re.indices| &&
      forall k :: 0 <= k < |re.indices| ==>
        re.indices[k].0 < rows && re.indices[k].1 < cols &&
        re.values[k] == wRe[re.indices[k].0][re.indices[k].1] &&
        im.values[k] == wIm[re.indices[k].0][re.indices[k].1]
  {
    var keep := Not(pruned);
    NonZeroListsTrue(keep);
    NonZeroIsRowMajor(keep);
    MaskedSelectFollowsNonZero(wRe, keep);
    MaskedSelectFollowsNonZero(wIm, keep);
  }

  /** Both sparsified forms store the same matrices: densifying the "sparse"
      buffers gives exactly the "dense" buffers for the same mask. */
  lemma SparseAndDenseBuffersAgree(wRe: Matrix, wIm: Matrix, pruned: Mask, rows: nat, cols: nat)
    requires IsMatrix(wRe, rows, cols) && IsMatrix(wIm, rows, cols) && IsMatrix(pruned, rows, cols)
    ensures
      var sparse := SparsifiedBuffers(Sparse, wRe, wIm, pruned, rows, cols);
      var dense := SparsifiedBuffers(Dense, wRe, wIm, pruned, rows, cols);
      sparse.0.Some? && sparse.1.Some? && dense.0.Some? && dense.1.Some? &&
      |sparse.0.value.indices| == |sparse.0.value.values| &&
      |sparse.1.value.indices| == |sparse.1.value.values| &&
      ToDense(sparse.0.value) == ToDense(dense.0.value) &&
      ToDense(sparse.1.value) == ToDense(dense.1.value)
  {
    var keep := Not(pruned);
    CooOfKeptIsWhere(wRe, keep, rows, cols);
    CooOfKeptIsWhere(wIm, keep, rows, cols);
  }

  /** Whatever the mode, the buffers `sparsify` builds agree with that mode
      and have the weight's shape. */
  lemma SparsifiedBuffersFit(mode: SparsityMode, wRe: Matrix, wIm: Matrix, pruned: Mask, rows: nat, cols: nat)
    requires IsMatrix(wRe, rows, cols) && IsMatrix(wIm, rows, cols) && IsMatrix(pruned, rows, cols)
    ensures
      var b := SparsifiedBuffers(mode, wRe, wIm, pruned, rows, cols);
      BuffersFit(mode, b.0, b.1, rows, cols)
  {
    if mode == Sparse {
      SparseBuffersListKept(wRe, wIm, pruned, rows, cols);
    }
  }

  /** The computation `forward` runs. */
  datatype Branch =
    | NoisySample     // mean with the live weight plus sampled noise (training)
    | MeanOnly        // mean with the live weight, no noise
    | MaskedDense     // `cplx_linear` with the dense sparsified buffers
    | SparseMatmul    // `torch_sparse_cplx_linear` with the sparse buffers

  /** The branch `forward` / `forward_sparse` take: noise exactly in training
      mode; in evaluation mode the stored buffers when sparsified (the dense
      product for mode "dense", the sparse one otherwise), the plain mean
      when not. */
  function ForwardBranch(training: bool, isSparse: bool, mode: SparsityMode): (b: Branch)
    ensures b == NoisySample <==> training
    ensures b == MeanOnly <==> !training && !isSparse
    ensures b == MaskedDense <==> !training && isSparse && mode == Dense
    ensures b == SparseMatmul <==> !training && isSparse && mode != Dense
  {
    if !training && isSparse then
      (if mode == Dense then MaskedDense else SparseMatmul)
    else if !training then MeanOnly
    else NoisySample
  }

  /** What one forward pass multiplies the input by. The bias is applied
      densely on every path and is not shown. */
  datatype ForwardPlan =
    | Noisy(re: Matrix, im: Matrix)               // live weight, plus noise
    | DenseLinear(re: Matrix, im: Matrix)         // `cplx_linear` with this weight
    | SparseLinear(reT: Tensor, imT: Tensor)      // `torch_sparse_cplx_linear` with these tensors

  /** The layer. `weightRe`/`weightIm` are the complex weight, `logSigma2`
      the per-weight log-variance, `training` the module flag,
      `sparsityMode` the recorded `sparsity_mode_`, and
      `sparseReWeight`/`sparseImWeight` the optional registered buffers
      (`None` where the attribute does not exist). */
  class CplxLinearARD {
    const inFeatures: nat
    const outFeatures: nat
    const exact: bool
    var weightRe: Matrix
    var weightIm: Matrix
    var logSigma2: array2<real>
    var training: bool
    var sparsityMode: SparsityMode
    var sparseReWeight: Option<Tensor>
    var sparseImWeight: Option<Tensor>

    /** The weight and log-variance are `out × in`, and the buffers agree
        with the recorded mode. */
    ghost predicate Valid()
      reads this
    {
      IsMatrix(weightRe, outFeatures, inFeatures) && IsMatrix(weightIm, outFeatures, inFeatures) &&
      logSigma2.Length0 == outFeatures && logSigma2.Length1 == inFeatures &&
      BuffersFit(sparsityMode, sparseReWeight, sparseImWeight, outFeatures, inFeatures)
    }

    /** `is_sparse` of the base ARD layer (not part of this model), taken to
        mean that a sparsification is recorded. */
    predicate IsSparse()
      reads this
    {
      sparsityMode != NoSparsity
    }

    /** Under the invariant, "a sparsification is recorded" and "the buffers
        exist" are the same condition. */
    lemma IsSparseIffBuffers()
      requires Valid()
      ensures IsSparse() <==> sparseReWeight.Some?
      ensures IsSparse() <==> sparseImWeight.Some?
    {
    }

    /** `__init__`: the weight the base linear layer initialises, a fresh
        `out × in` log-variance reset to -10, training mode, no
        sparsification. */
    constructor (inFeatures: nat, outFeatures: nat, weightRe: Matrix, weightIm: Matrix, exact: bool)
      requires IsMatrix(weightRe, outFeatures, inFeatures) && IsMatrix(weightIm, outFeatures, inFeatures)
      ensures Valid() && fresh(logSigma2)
      ensures this.inFeatures == inFeatures && this.outFeatures == outFeatures && this.exact == exact
      ensures this.weightRe == weightRe && this.weightIm == weightIm
      ensures training && sparsityMode == NoSparsity
      ensures forall i, j :: 0 <= i < outFeatures && 0 <= j < inFeatures ==> logSigma2[i, j] == LogSigma2Init
    {
      this.inFeatures := inFeatures;
      this.outFeatures := outFeatures;
      this.exact := exact;
      this.weightRe := weightRe;
      this.weightIm := weightIm;
      logSigma2 := new real[outFeatures, inFeatures];
      training := true;
      sparsityMode := NoSparsity;
      sparseReWeight := None;
      sparseImWeight := None;
      new;
      ResetVariationalParameters();
    }

    /** `reset_variational_parameters`: fills `log_sigma2` in place with -10;
        nothing else changes. */
    method ResetVariationalParameters()
      requires Valid()
      modifies logSigma2
      ensures Valid()
      ensures forall i, j :: 0 <= i < logSigma2.Length0 && 0 <= j < logSigma2.Length1 ==>
                logSigma2[i, j] == LogSigma2Init
    {
      var i := 0;
      while i < logSigma2.Length0
        invariant 0 <= i <= logSigma2.Length0
        invariant forall r, c :: 0 <= r < i && 0 <= c < logSigma2.Length1 ==> logSigma2[r, c] == LogSigma2Init
      {
        var j := 0;
        while j < logSigma2.Length1
          invariant 0 <= j <= logSigma2.Length1
          invariant forall r, c :: 0 <= r < i && 0 <= c < logSigma2.Length1 ==> logSigma2[r, c] == LogSigma2Init
          invariant forall c :: 0 <= c < j ==> logSigma2[i, c] == LogSigma2Init
        {
          logSigma2[i, j] := LogSigma2Init;
          j := j + 1;
        }
        i := i + 1;
      }
    }

    /** `train(mode)` / `eval()` of the base module: sets the training flag. */
    method SetTraining(mode: bool)
      requires Valid()
      modifies this`training
      ensures Valid() && training == mode
    {
      training := mode;
    }

    /** `sparsify(threshold, mode="dense")` with `pruned = get_sparsity_mask(threshold)`.
        A bad mode raises ValueError, and a non-`None` mode while training
        raises RuntimeError, both before any field changes. Otherwise the
        mode is recorded, the buffers are rebuilt from the current weight
        and mask (or deleted for `None`), and the layer itself is returned.
        The weight, log-variance and training flag never change. */
    method Sparsify(pruned: Mask, mode: Option<string> := Some("dense")) returns (r: Result<CplxLinearARD>)
      requires Valid() && IsMatrix(pruned, outFeatures, inFeatures)
      modifies this
      ensures Valid()
      ensures weightRe == old(weightRe) && weightIm == old(weightIm)
      ensures logSigma2 == old(logSigma2) && training == old(training)
      ensures r.Err? <==> AdmitSparsify(mode, training).Err?
      ensures r.Err? ==>
                r.error == AdmitSparsify(mode, training).error &&
                sparsityMode == old(sparsityMode) &&
                sparseReWeight == old(sparseReWeight) && sparseImWeight == old(sparseImWeight)
      ensures r.Ok? ==>
                r.value == this &&
                sparsityMode == AdmitSparsify(mode, training).value &&
                (sparseReWeight, sparseImWeight)
                  == SparsifiedBuffers(sparsityMode, weightRe, weightIm, pruned, outFeatures, inFeatures)
    {
      if mode.Some? && mode.value != "dense" && mode.value != "sparse" {
        return Err(ValueError);
      }
      if mode.Some? && training {
        return Err(RuntimeError);
      }
      sparsityMode := if mode == None then NoSparsity else if mode.value == "dense" then Dense else Sparse;
      if mode.Some? {
        var keep := Not(pruned);
        var re, im;
        if mode.value == "sparse" {
          var indices := NonZero(keep);
          re := CooTensor(indices, MaskedSelect(weightRe, keep), outFeatures, inFeatures);
          im := CooTensor(indices, MaskedSelect(weightIm, keep), outFeatures, inFeatures);
        } else {
          re := DenseTensor(Where(keep, weightRe));
          im := DenseTensor(Where(keep, weightIm));
        }
        sparseReWeight := Some(re);
        sparseImWeight := Some(im);
      } else {
        if sparseReWeight.Some? {
          sparseReWeight := None;
        }
        if sparseImWeight.Some? {
          sparseImWeight := None;
        }
      }
      SparsifiedBuffersFit(sparsityMode, weightRe, weightIm, pruned, outFeatures, inFeatures);
      r := Ok(this);
    }

    /** `num_zeros(threshold)` with `pruned = get_sparsity_mask(threshold)`:
        twice the number of pruned weights; it changes nothing. */
    function NumZerosOf(pruned: Mask): (n: nat)
      reads this
      requires Valid() && IsMatrix(pruned, outFeatures, inFeatures)
      ensures n % 2 == 0 && n <= 2 * outFeatures * inFeatures
      ensures n == 2 * outFeatures * inFeatures - 2 * |NonZero(Not(pruned))|
    {
      NumZerosComplementsKept(pruned, outFeatures, inFeatures);
      NumZeros(pruned)
    }

    /** `forward`: which computation runs and with which weight. Noise is
        added exactly in training mode; in evaluation mode a recorded
        sparsification multiplies by the stored buffers, densely for
        "dense" and as a sparse product otherwise; without one, the mean
        with the live weight is returned. */
    function Forward(): (p: ForwardPlan)
      reads this
      requires Valid()
      ensures p.Noisy? <==> training
      ensures p.Noisy? ==> p == Noisy(weightRe, weightIm)
      ensures !training && !IsSparse() ==> p == DenseLinear(weightRe, weightIm)
      ensures !training && sparsityMode == Dense ==>
                p == DenseLinear(ToDense(sparseReWeight.value), ToDense(sparseImWeight.value))
      ensures !training && sparsityMode == Sparse ==>
                p == SparseLinear(sparseReWeight.value, sparseImWeight.value)
    {
      match ForwardBranch(training, IsSparse(), sparsityMode)
      case NoisySample => Noisy(weightRe, weightIm)
      case MeanOnly => DenseLinear(weightRe, weightIm)
      case MaskedDense => DenseLinear(sparseReWeight.value.entries, sparseImWeight.value.entries)
      case SparseMatmul => SparseLinear(sparseReWeight.value, sparseImWeight.value)
    }
  }

  /** Calling `sparsify` a second time with the same mask and mode, and no
      change to the weight in between, gives the same outcome as the first
      call and leaves exactly the mode and buffers the first call left:
      the buffers are rebuilt from the weight and mask, not from earlier
      buffers. */
  method SparsifyTwice(layer: CplxLinearARD, pruned: Mask, mode: Option<string>)
    returns (first: Result<CplxLinearARD>, second: Result<CplxLinearARD>,
             afterFirst: (SparsityMode, Option<Tensor>, Option<Tensor>))
    requires layer.Valid() && IsMatrix(pruned, layer.outFeatures, layer.inFeatures)
    modifies layer
    ensures layer.Valid() && layer.training == old(layer.training)
    ensures first == second
    ensures (layer.sparsityMode, layer.sparseReWeight, layer.sparseImWeight) == afterFirst
  {
    first := layer.Sparsify(pruned, mode);
    afterFirst := (layer.sparsityMode, layer.sparseReWeight, layer.sparseImWeight);
    second := layer.Sparsify(pruned, mode);
  }

  /** In evaluation mode, `sparsify` with the default mode "dense" succeeds,
      and `forward` then multiplies by a weight of the layer's shape that
      keeps every unpruned entry and zeros every pruned one. */
  method DenseForwardMasksWeight(layer: CplxLinearARD, pruned: Mask)
    returns (r: Result<CplxLinearARD>, denseForward: ForwardPlan)
    requires layer.Valid() && IsMatrix(pruned, layer.outFeatures, layer.inFeatures)
    modifies layer
    ensures layer.Valid() && !layer.training && layer.sparsityMode == Dense
    ensures layer.weightRe == old(layer.weightRe) && layer.weightIm == old(layer.weightIm)
    ensures r == Ok(layer)
    ensures denseForward == DenseLinear(Where(Not(pruned), layer.weightRe), Where(Not(pruned), layer.weightIm))
    ensures IsMatrix(denseForward.re, layer.outFeatures, layer.inFeatures)
    ensures IsMatrix(denseForward.im, layer.outFeatures, layer.inFeatures)
    ensures forall i, j :: 0 <= i < layer.outFeatures && 0 <= j < layer.inFeatures ==>
              denseForward.re[i][j] == (if pruned[i][j] then 0.0 else layer.weightRe[i][j]) &&
              denseForward.im[i][j] == (if pruned[i][j] then 0.0 else layer.weightIm[i][j])
  {
    layer.SetTraining(false);
    r := layer.Sparsify(pruned);
    denseForward := layer.Forward();
  }

  /** In evaluation mode, after the default mode "dense" and then "sparse"
      with the same mask, the sparse forward tensors densify to exactly the
      weight the dense forward multiplied by. */
  method DenseAndSparseForwardAgree(layer: CplxLinearARD, pruned: Mask)
    returns (denseForward: ForwardPlan, sparseForward: ForwardPlan)
    requires layer.Valid() && IsMatrix(pruned, layer.outFeatures, layer.inFeatures)
    modifies layer
    ensures layer.Valid() && !layer.training && layer.sparsityMode == Sparse
    ensures layer.weightRe == old(layer.weightRe) && layer.weightIm == old(layer.weightIm)
    ensures denseForward.DenseLinear? && sparseForward.SparseLinear?
    ensures sparseForward.reT.CooTensor? && sparseForward.imT.CooTensor?
    ensures |sparseForward.reT.indices| == |sparseForward.reT.values|
    ensures |sparseForward.imT.indices| == |sparseForward.imT.values|
    ensures ToDense(sparseForward.reT) == denseForward.re
    ensures ToDense(sparseForward.imT) == denseForward.im
  {
    var r;
    r, denseForward := DenseForwardMasksWeight(layer, pruned);
    var rows, cols := layer.outFeatures, layer.inFeatures;
    var sparse := SparsifiedBuffers(Sparse, layer.weightRe, layer.weightIm, pruned, rows, cols);
    assert sparse.0.Some? && sparse.1.Some? && sparse.0.value.CooTensor? && sparse.1.value.CooTensor? &&
           |sparse.0.value.indices| == |sparse.0.value.values| &&
           |sparse.1.value.indices| == |sparse.1.value.values| &&
           ToDense(sparse.0.value) == denseForward.re && ToDense(sparse.1.value) == denseForward.im by {
      SparseAndDenseBuffersAgree(layer.weightRe, layer.weightIm, pruned, rows, cols);
    }
    r := layer.Sparsify(pruned, Some("sparse"));
    sparseForward := layer.Forward();
  }

  /** Clearing succeeds in every state, training or not, and clearing twice
      is the same as clearing once: both calls return the layer, no buffer
      is left, and in evaluation mode `forward` is the plain mean again. */
  method ClearTwice(layer: CplxLinearARD, pruned: Mask)
    returns (first: Result<CplxLinearARD>, second: Result<CplxLinearARD>)
    requires layer.Valid() && IsMatrix(pruned, layer.outFeatures, layer.inFeatures)
    modifies layer
    ensures layer.Valid() && layer.training == old(layer.training)
    ensures first == Ok(layer) && second == Ok(layer)
    ensures layer.sparsityMode == NoSparsity && layer.sparseReWeight == None && layer.sparseImWeight == None
    ensures !layer.training ==> layer.Forward() == DenseLinear(layer.weightRe, layer.weightIm)
  {
    first := layer.Sparsify(pruned, None);
    second := layer.Sparsify(pruned, None);
  }

  /** While training, "sparse" raises RuntimeError and an unknown mode raises
      ValueError, and neither changes the mode or the buffers; `None` then
      still succeeds and removes both buffers. */
  method SparsifyWhileTraining(layer: CplxLinearARD, pruned: Mask)
    returns (refused: Result<CplxLinearARD>, invalid: Result<CplxLinearARD>, cleared: Result<CplxLinearARD>,
             afterErrors: (SparsityMode, Option<Tensor>, Option<Tensor>))
    requires layer.Valid() && IsMatrix(pruned, layer.outFeatures, layer.inFeatures)
    modifies layer
    ensures layer.Valid() && layer.training
    ensures refused == Err(RuntimeError) && invalid == Err(ValueError) && cleared == Ok(layer)
    ensures afterErrors == (old(layer.sparsityMode), old(layer.sparseReWeight), old(layer.sparseImWeight))
    ensures layer.sparsityMode == NoSparsity && layer.sparseReWeight == None && layer.sparseImWeight == None
  {
    layer.SetTraining(true);
    refused := layer.Sparsify(pruned, Some("sparse"));
    invalid := layer.Sparsify(pruned, Some("csr"));
    afterErrors := (layer.sparsityMode, layer.sparseReWeight, layer.sparseImWeight);
    cleared := layer.Sparsify(pruned, None);
  }
}
