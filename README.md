# CplxLinearARD sparsification, modelled in Dafny

This project models the discrete core of `cplxmodule/relevance/complex.py`.
That file holds the complex variational-dropout (ARD) linear layer
`CplxLinearARD`. The model covers:

- `sparsify(threshold, mode)`. It validates the mode, refuses a non-`None`
  mode while training, records `sparsity_mode_`, and then either registers the
  sparsified weight buffers or deletes them. The buffers are a zero-masked
  dense copy of the weight, or sparse COO tensors built from
  `mask.nonzero()` and `weight[mask]`.
- `num_zeros`, which reports two zeros per pruned complex weight.
- The choice `forward` / `forward_sparse` make between the noisy training
  pass, the plain mean, the masked dense product and the sparse product.
- `reset_variational_parameters`, which fills `log_sigma2` in place with −10.
- The reduction-token validation and dispatch of `cplx_nkldiv_exact`.

Modules:

- `Outcomes` (outcomes.dfy): `Option`, `Result`, and the two exceptions.
- `Matrices` (matrices.dfy): matrices and masks as nested sequences,
  row-major order, negation and counting of masks.
- `Sparsity` (sparsity.dfy): `torch.where`, `nonzero`, boolean-mask
  selection, COO tensors and their densification, and the `num_zeros` count.
- `KLDivergence` (kldiv.dfy): `cplx_nkldiv_exact`'s reductions.
- `LinearARD` (linear_ard.dfy): the layer, as a class `CplxLinearARD` whose
  methods update its fields.

The sparsity mask is an input. `get_sparsity_mask(threshold)` belongs to the
base ARD layer in `base.py`, which is not part of this model. So every
operation that needs the mask takes the boolean `pruned` mask the call would
return, of the weight's shape. The layer's keep mask is its negation (`~mask`).
The threshold itself therefore does not appear.

`is_sparse` also belongs to `base.py`. It is taken to mean "a sparsification
mode is recorded". `CplxLinearARD.IsSparseIffBuffers` proves that, under the
layer's invariant, this is the same as "the buffers exist". So the model
agrees with either reading of the base class.

Two places where the code does something other than its comments suggest:

- The comment at complex.py:105 speaks of gaussian noise, but complex.py:106
  samples it with `torch.rand_like`, which is uniform. The noise is left out
  anyway.
- `reset_variational_parameters` draws from `uniform_(-10, -10)`
  (complex.py:73), which is the constant −10. `LogSigma2Init` is that
  constant.

Default arguments are kept where the model has the parameter:
`CplxLinearARD.Sparsify` defaults `mode` to "dense", and
`CplxNkldivExact` defaults `reduction` to "mean".

## Model

| member | source | states |
|---|---|---|
| `LinearARD.ParseMode` | cplxmodule/relevance/complex.py:117-119 | a mode is accepted exactly when it is `None`, "dense" or "sparse"; the accepted mode's token is the argument; anything else is a ValueError |
| `LinearARD.ParseModeToken` | cplxmodule/relevance/complex.py:117-119 | every mode is accepted back from its own token |
| `LinearARD.AdmitSparsify` | cplxmodule/relevance/complex.py:117-124 | ValueError exactly for an unknown mode (checked first, even while training); RuntimeError exactly for a valid non-`None` mode while training; `None` is admitted in every state; otherwise the recorded mode is the one named |
| `LinearARD.CplxLinearARD.Sparsify` | cplxmodule/relevance/complex.py:116-151 | the mode defaults to "dense"; on error, the mode and both buffers are unchanged and the error is the one the guards name; on success it returns the layer itself, records the mode, and sets the buffers to those rebuilt from the current weight and mask (none for `None`); the weight, log-variance and training flag never change; the buffer invariant is kept |
| `LinearARD.DenseBuffersMaskWeight` | cplxmodule/relevance/complex.py:135-140 | mode "dense" stores two dense buffers of the weight's shape; a kept entry equals the weight's real (imaginary) part exactly and a pruned entry is 0 |
| `LinearARD.SparseBuffersListKept` | cplxmodule/relevance/complex.py:126-133 | mode "sparse" stores one index list shared by both buffers; it holds exactly the kept positions in strictly row-major order; the k-th value is the weight's real (imaginary) part at the k-th index; the declared shape is the weight's |
| `LinearARD.SparseAndDenseBuffersAgree` | cplxmodule/relevance/complex.py:126-140 | densifying the "sparse" buffers gives exactly the "dense" buffers for the same mask, so both sparsified forward paths multiply by the same matrix |
| `LinearARD.SparsifiedBuffersFit` | cplxmodule/relevance/complex.py:124-147 | for every mode the rebuilt buffers agree with the mode (none, two dense, or two COO sharing indices) and have the weight's shape |
| `LinearARD.SparsifyTwice` | cplxmodule/relevance/complex.py:124-141 | a second `sparsify` with the same mask and mode returns the same outcome as the first and leaves exactly the mode and buffers the first left |
| `LinearARD.DenseForwardMasksWeight` | cplxmodule/relevance/complex.py:109-112 | in evaluation mode, `sparsify` with the default mode "dense" returns the layer, and `forward` multiplies by a weight of the layer's shape that keeps every unpruned entry and zeros every pruned one |
| `LinearARD.DenseAndSparseForwardAgree` | cplxmodule/relevance/complex.py:109-140 | in evaluation mode, after "dense" and then "sparse" with the same mask, the sparse forward tensors densify to exactly the weight the dense forward used |
| `LinearARD.ClearTwice` | cplxmodule/relevance/complex.py:143-147 | `sparsify(None)` succeeds twice in any training state, returns the layer, leaves no buffer, and in evaluation mode `forward` is the plain mean again |
| `LinearARD.SparsifyWhileTraining` | cplxmodule/relevance/complex.py:117-147 | while training, "sparse" returns RuntimeError and an unknown mode ValueError, neither changing the mode or either buffer; `None` then succeeds and removes both buffers |
| `LinearARD.SparsifiedBuffers` | cplxmodule/relevance/complex.py:124-141 | the buffers each mode registers; its properties are stated by `DenseBuffersMaskWeight`, `SparseBuffersListKept`, `SparseAndDenseBuffersAgree` and `SparsifiedBuffersFit` |
| `Sparsity.NonZero` | cplxmodule/relevance/complex.py:129 | `mask.nonzero()`; its properties are stated by `NonZeroListsTrue` and `NonZeroIsRowMajor` |
| `Sparsity.MaskedSelect` | cplxmodule/relevance/complex.py:131-133 | `weight.real[mask]` and `weight.imag[mask]`; its properties are stated by `MaskedSelectFollowsNonZero` |
| `Sparsity.NumZeros` | cplxmodule/relevance/complex.py:154 | the result is twice the number of positions `nonzero` lists for the pruned mask, that is, twice the pruned count |
| `Matrices.Not` | cplxmodule/relevance/complex.py:126 | `~mask`: the same shape, each entry negated |
| `Matrices.CountTrue` | cplxmodule/relevance/complex.py:154 | `mask.sum()`; `CountComplement` proves that a mask and its negation count every entry once, and `NonZeroListsTrue` that it equals the length of the `nonzero` list |
| `Matrices.CountComplement` | cplxmodule/relevance/complex.py:126-154 | the pruned count plus the kept count is out·in |
| `KLDivergence.Sum` | cplxmodule/relevance/complex.py:58 | `.sum()` over all elements; `SumConcat` proves it is the sum of the sums of any two consecutive parts |
| `KLDivergence.SumConcat` | cplxmodule/relevance/complex.py:58 | the sum of a concatenation is the sum of the parts' sums |
| `KLDivergence.DefaultReductionIsMean` | cplxmodule/relevance/complex.py:34 | without a reduction argument the result is the "mean" one, which is never an error |
| `LinearARD.CplxLinearARD.IsSparseIffBuffers` | cplxmodule/relevance/complex.py:92-93 | under the invariant, a recorded sparsification mode and the existence of each buffer are equivalent |
| `LinearARD.CplxLinearARD.NumZerosOf` | cplxmodule/relevance/complex.py:153-154 | the count is even, at most 2·out·in, and equals 2·out·in minus twice the number of kept positions listed by `nonzero` |
| `Sparsity.NumZerosComplementsKept` | cplxmodule/relevance/complex.py:126-154 | `num_zeros` plus twice the length of the kept-index list is 2·out·in |
| `Sparsity.NonZeroListsTrue` | cplxmodule/relevance/complex.py:129 | `nonzero` lists a position exactly when it is in range and true there, and lists as many positions as the mask has true entries |
| `Sparsity.NonZeroIsRowMajor` | cplxmodule/relevance/complex.py:129 | `nonzero` lists positions in strictly increasing row-major order |
| `Sparsity.MaskedSelectFollowsNonZero` | cplxmodule/relevance/complex.py:129-133 | `w[mask]` has one value per listed index, and its k-th value is the entry of `w` at the k-th index `nonzero` lists |
| `Sparsity.CooOfKeptIsWhere` | cplxmodule/relevance/complex.py:128-138 | the COO tensor built from `nonzero` and `w[mask]` densifies to `torch.where(mask, w, 0)` |
| `Sparsity.Where` | cplxmodule/relevance/complex.py:136-138 | the result has the weight's shape, holds the weight's entry where the mask is true, and 0 elsewhere |
| `LinearARD.ForwardBranch` | cplxmodule/relevance/complex.py:91-114 | noise is added exactly in training mode; in evaluation mode the mean alone is returned exactly when nothing is sparsified; the masked dense product is used exactly for mode "dense" and the sparse product for any other recorded mode |
| `LinearARD.CplxLinearARD.Forward` | cplxmodule/relevance/complex.py:91-114 | training uses the live weight with noise; evaluation without sparsification uses the live weight; with "dense" it uses the stored dense buffers; with "sparse" it uses the stored COO buffers |
| `LinearARD.CplxLinearARD.ResetVariationalParameters` | cplxmodule/relevance/complex.py:72-73 | every `log_sigma2` entry is −10 afterwards, filled in place |
| `LinearARD.CplxLinearARD.constructor` | cplxmodule/relevance/complex.py:64-70 | a fresh `out × in` log-variance reset to −10, the given weight, training mode, no sparsification, the invariant established |
| `KLDivergence.ParseReduction` | cplxmodule/relevance/complex.py:47-49 | a reduction is accepted exactly when it is `None`, "mean" or "sum"; the accepted reduction's token is the argument; anything else is a ValueError |
| `KLDivergence.ParseReductionToken` | cplxmodule/relevance/complex.py:47-49 | every reduction is accepted back from its own token |
| `KLDivergence.Pointwise` | cplxmodule/relevance/complex.py:52 | one divergence per log α, in the same order |
| `KLDivergence.CplxNkldivExact` | cplxmodule/relevance/complex.py:34-60 | the reduction defaults to "mean"; ValueError exactly for an unknown reduction, whatever the input; `None` returns the elementwise divergences, "sum" their sum, "mean" a value that times the count is that sum (NaN for no elements) |

## Left out

- The numeric content of the KL estimators: the exponential integral, `exp` and the Euler–Mascheroni constant. `KLDivergence.CplxNkldivExact` takes the elementwise formula as a parameter `divergence`.
- `cplx_nkldiv_apprx`: its body is `kldiv_approx` in `utils.py`, which is not part of this model. Only its coefficients are visible here.
- `log_alpha` and `penalty`: floating-point `abs`/`log` arithmetic with an epsilon. The pruned mask they lead to is an input instead.
- `get_sparsity_mask` and `is_sparse` from `base.py`, which is not part of this model. The mask is a parameter, and `is_sparse` is the assumption stated above.
- The training-mode noise: random sampling and a floating-point square root. `Forward` only records that noise is added, and to the product with the live weight.
- The matrix products themselves: `cplx_linear`, `CplxLinear.forward`, `torch_sparse_cplx_linear` and `torch_sparse_tensor`. `Forward` records which one runs and with which weight. The bias is passed unchanged on every path and is not shown.
- `KLDivergence.CplxNkldivExact`: the reductions are over a flat sequence of log α values, because the tensor's shape plays no part in them. "mean" is stated by its product with the count, not as a floating-point division.
- The `threshold` argument of `sparsify` and `num_zeros`, with its default 1.0: it only reaches the mask through `get_sparsity_mask`, and the mask is an input here.
- LinearARD.CplxLinearARD.Sparsify: the source records `sparsity_mode_` (complex.py:124) before it calls `get_sparsity_mask` (complex.py:126) and `torch_sparse_tensor` (complex.py:130-133). If either of those raised, the mode would stay set with missing or stale buffers, and a later evaluation-mode `forward` would read them through `forward_sparse` (complex.py:110). Here the mask is an input and building the buffers cannot fail. So "on error nothing changes" covers only the two errors modelled, ValueError and RuntimeError.
- LinearARD.CplxLinearARD.IsSparseIffBuffers: for the same reason, the equivalence of a recorded mode and existing buffers holds only when those collaborators do not raise.
- `SetTraining` stands for the base module's `train()`/`eval()`, which set the flag the layer reads.
- `tests/test_cplx.py` exercises `cplxmodule/cplx.py`, which is not part of this model.
