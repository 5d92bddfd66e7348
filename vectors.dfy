/** Embedding vectors as fixed-length sequences of reals, standing for the
    numpy arrays of the source (`np.zeros`, `np.add`, in-place `/=`). */
module Vectors {

  type Vector = seq<real>

  /** The zero vector of dimension `dim`. */
  function Zero(dim: nat): (v: Vector)
    ensures |v| == dim
    ensures forall k :: 0 <= k < dim ==> v[k] == 0.0
  {
    seq(dim, _ => 0.0)
  }

  /** `np.add(a, b)`: for equal shapes the element-wise sum. Shapes always
      agree where the model adds; otherwise the result keeps the length of `a`,
      a shorter `b` reading as padded with zeros and a longer one truncated. */
  function Add(a: Vector, b: Vector): (v: Vector)
    ensures |v| == |a|
    ensures |a| == |b| ==> forall k :: 0 <= k < |a| ==> v[k] == a[k] + b[k]
  {
    seq(|a|, k requires 0 <= k < |a| => a[k] + if k < |b| then b[k] else 0.0)
  }

  /** `a / n` for a positive count `n`: every element divided by `n`. */
  function Div(a: Vector, n: nat): (v: Vector)
    requires n > 0
    ensures |v| == |a|
    ensures forall k :: 0 <= k < |a| ==> v[k] * (n as real) == a[k]
  {
    seq(|a|, k requires 0 <= k < |a| => a[k] / (n as real))
  }

  /** Adding zeros changes nothing. */
  lemma AddZero(a: Vector, n: nat)
    ensures Add(a, Zero(n)) == a
  {
  }

  /** Addition regroups freely once the first summand is no longer than the second. */
  lemma AddAssoc(a: Vector, b: Vector, c: Vector)
    requires |a| <= |b|
    ensures Add(Add(a, b), c) == Add(a, Add(b, c))
  {
  }
}
