/** Reduction handling of the exact negative KL divergence
    `cplx_nkldiv_exact`: the reduction token is validated first, then the
    elementwise divergence is returned as is, summed, or averaged. The
    elementwise formula `log α + Ei(-exp(-log α)) - γ` is floating-point
    special-function code and is taken as a parameter `divergence`. */
module KLDivergence {
  import opened Outcomes

  /** The reductions `cplx_nkldiv_exact` accepts. */
  datatype Reduction = Elementwise | MeanOf | SumOf

  /** What `cplx_nkldiv_exact` returns: the elementwise tensor, a scalar, or
      NaN (torch's mean over no elements). */
  datatype KLValue =
    | PerWeight(values: seq<real>)
    | Scalar(value: real)
    | NotANumber

  /** The token naming each reduction: `None`, "mean" or "sum". */
  function ReductionToken(r: Reduction): Option<string>
  {
    match r
    case Elementwise => None
    case MeanOf => Some("mean")
    case SumOf => Some("sum")
  }

  /** The reduction a token names; any token other than `None`, "mean" and
      "sum" is a ValueError. */
  function ParseReduction(token: Option<string>): (r: Result<Reduction>)
    ensures r.Ok? <==> token == None || token == Some("mean") || token == Some("sum")
    ensures r.Ok? ==> ReductionToken(r.value) == token
    ensures r.Err? ==> r.error == ValueError
  {
    match token
    case None => Ok(Elementwise)
    case Some(t) =>
      if t == "mean" then Ok(MeanOf)
      else if t == "sum" then Ok(SumOf)
      else Err(ValueError)
  }

  /** Every reduction survives being written as its token and read back. */
  lemma ParseReductionToken(r: Reduction)
    ensures ParseReduction(ReductionToken(r)) == Ok(r)
  {
  }

  /** Sum of a sequence of reals, torch's `.sum()` (zero when empty). */
  function Sum(xs: seq<real>): real
  {
    if xs == [] then 0.0 else Sum(xs[..|xs| - 1]) + xs[|xs| - 1]
  }

  /** The sum over all elements is the sum of the sums of any two consecutive
      parts, so it does not depend on how the elements are grouped. */
  lemma {:induction false} SumConcat(xs: seq<real>, ys: seq<real>)
    ensures Sum(xs + ys) == Sum(xs) + Sum(ys)
  {
    if ys != [] {
      assert (xs + ys)[..|xs + ys| - 1] == xs + ys[..|ys| - 1];
      SumConcat(xs, ys[..|ys| - 1]);
    } else {
      assert xs + ys == xs;
    }
  }

  /** The divergence applied to every log α. */
  function Pointwise(logAlpha: seq<real>, divergence: real -> real): (r: seq<real>)
    ensures |r| == |logAlpha|
    ensures forall k :: 0 <= k < |logAlpha| ==> r[k] == divergence(logAlpha[k])
  {
    seq(|logAlpha|, k requires 0 <= k < |logAlpha| => divergence(logAlpha[k]))
  }

  /** `cplx_nkldiv_exact(log_alpha, reduction="mean")`: a ValueError for an
      unknown reduction, decided before anything is computed; otherwise the
      per-weight divergences, their sum, or their mean. */
  function CplxNkldivExact(logAlpha: seq<real>, divergence: real -> real, reduction: Option<string> := Some("mean"))
    : (r: Result<KLValue>)
    ensures r.Err? <==> ParseReduction(reduction).Err?
    ensures r.Err? ==> r.error == ValueError
    ensures reduction == None ==> r == Ok(PerWeight(Pointwise(logAlpha, divergence)))
    ensures reduction == Some("sum") ==> r == Ok(Scalar(Sum(Pointwise(logAlpha, divergence))))
    ensures reduction == Some("mean") && |logAlpha| > 0 ==>
              r.Ok? && r.value.Scalar? && r.value.value * (|logAlpha| as real) == Sum(Pointwise(logAlpha, divergence))
    ensures reduction == Some("mean") && |logAlpha| == 0 ==> r == Ok(NotANumber)
  {
    match ParseReduction(reduction)
    case Err(e) => Err(e)
    case Ok(red) =>
      var klDiv := Pointwise(logAlpha, divergence);
      match red
      case MeanOf => if |klDiv| == 0 then Ok(NotANumber) else Ok(Scalar(Sum(klDiv) / (|klDiv| as real)))
      case SumOf => Ok(Scalar(Sum(klDiv)))
      case Elementwise => Ok(PerWeight(klDiv))
  }

  /** Without a reduction argument the mean is returned, the default of
      `reduction`. */
  lemma DefaultReductionIsMean(logAlpha: seq<real>, divergence: real -> real)
    ensures CplxNkldivExact(logAlpha, divergence) == CplxNkldivExact(logAlpha, divergence, Some("mean"))
    ensures |logAlpha| > 0 ==> CplxNkldivExact(logAlpha, divergence).Ok?
  {
  }
}
