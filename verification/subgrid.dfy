/** The ψ-normalised parameterisation used by `make_subgrid` to place the
    knots of a boundary spline: sample i of a traced boundary gets the weight
    |(ψ_i − ψ_0) / (ψ_last − ψ_0)|. The ψ evaluator itself is outside the
    model; the boundary enters as its sequence of ψ values. */
module Subgrid {
  import opened Wrappers
  import opened Geometry

  /** The weight of one sample: the distance in ψ from the first sample as a
      fraction of the distance from the first to the last. */
  function Weight(v: real, vmin: real, vmax: real): (w: real)
    requires vmax != vmin
    ensures w >= 0.0 && w == Abs(v - vmin) / Abs(vmax - vmin)
  {
    var q := (v - vmin) / (vmax - vmin);
    if q < 0.0 then -q else q
  }

  /** `psi_parameterize(grid, r, z)` on the ψ values of the samples. An empty
      boundary fails on `r[-1]`; equal end values make the denominator zero. */
  function PsiParameterize(psi: seq<real>): (r: Result<seq<real>, Exception>)
    ensures r.Err? <==> |psi| == 0 || psi[|psi| - 1] == psi[0]
    ensures |psi| == 0 ==> r == Err(IndexError)
    ensures |psi| > 0 && r.Err? ==> r.error == ZeroDivision
    ensures r.Ok? ==> |r.value| == |psi|
    ensures r.Ok? ==> forall i :: 0 <= i < |psi| ==> r.value[i] >= 0.0
  {
    if |psi| == 0 then Err(IndexError)
    else
      var vmin, vmax := psi[0], psi[|psi| - 1];
      if vmax == vmin then Err(ZeroDivision)
      else
        Ok(seq(|psi|, i requires 0 <= i < |psi| => Weight(psi[i], vmin, vmax)))
  }

  /** Sample i's weight is its ψ distance from the first sample divided by
      the ψ distance between the two ends. */
  lemma WeightAt(psi: seq<real>, i: int)
    requires PsiParameterize(psi).Ok? && 0 <= i < |psi|
    ensures PsiParameterize(psi).value[i] == Weight(psi[i], psi[0], psi[|psi| - 1])
    ensures PsiParameterize(psi).value[i] == Abs(psi[i] - psi[0]) / Abs(psi[|psi| - 1] - psi[0])
  {
  }

  lemma DivSelf(x: real)
    requires x != 0.0
    ensures x / x == 1.0
  {
  }

  lemma DivMono(x: real, y: real, d: real)
    requires d > 0.0 && x <= y
    ensures x / d <= y / d
  {
  }

  lemma DivScale(x: real, d: real, c: real)
    requires d != 0.0 && c != 0.0
    ensures (c * x) / (c * d) == x / d
  {
  }

  lemma DivSub(x: real, y: real, d: real)
    requires d != 0.0
    ensures (x - y) / d == x / d - y / d
  {
  }

  lemma AbsMul(a: real, x: real)
    ensures Abs(a * x) == Abs(a) * Abs(x)
  {
    if a < 0.0 && x < 0.0 {
      assert a * x == (-a) * (-x);
    } else if a < 0.0 {
      assert -(a * x) == (-a) * x;
    } else if x < 0.0 {
      assert -(a * x) == a * (-x);
    }
  }

  /** The weights of a whole boundary start at 0 and end at 1. */
  lemma PsiParameterizeEnds(psi: seq<real>)
    requires PsiParameterize(psi).Ok?
    ensures PsiParameterize(psi).value[0] == 0.0
    ensures PsiParameterize(psi).value[|psi| - 1] == 1.0
  {
    WeightAt(psi, 0);
    WeightAt(psi, |psi| - 1);
    DivSelf(Abs(psi[|psi| - 1] - psi[0]));
  }

  /** ψ moves monotonically from one end of the boundary to the other. */
  predicate Monotone(psi: seq<real>) {
    (forall i, j :: 0 <= i <= j < |psi| ==> psi[i] <= psi[j])
    || (forall i, j :: 0 <= i <= j < |psi| ==> psi[i] >= psi[j])
  }

  /** Along a boundary on which ψ is monotone, the weights are non-decreasing
      and lie in [0, 1]: they are a valid spline parameter. */
  lemma MonotoneParameter(psi: seq<real>)
    requires PsiParameterize(psi).Ok? && Monotone(psi)
    ensures var u := PsiParameterize(psi).value;
            && (forall i :: 0 <= i < |u| ==> 0.0 <= u[i] <= 1.0)
            && (forall i, j :: 0 <= i <= j < |u| ==> u[i] <= u[j])
  {
    var u := PsiParameterize(psi).value;
    var n := |psi|;
    var d := Abs(psi[n - 1] - psi[0]);
    PsiParameterizeEnds(psi);
    forall i, j | 0 <= i <= j < n
      ensures u[i] <= u[j]
    {
      WeightAt(psi, i);
      WeightAt(psi, j);
      DivMono(Abs(psi[i] - psi[0]), Abs(psi[j] - psi[0]), d);
    }
    forall i | 0 <= i < n
      ensures u[i] <= 1.0
    {
      assert u[i] <= u[n - 1];
    }
  }

  /** The affine image of a ψ sequence. */
  function Affine(psi: seq<real>, a: real, b: real): (r: seq<real>)
    ensures |r| == |psi|
    ensures forall i :: 0 <= i < |psi| ==> r[i] == a * psi[i] + b
  {
    seq(|psi|, i requires 0 <= i < |psi| => a * psi[i] + b)
  }

  lemma ScaledGap(a: real, b: real, x: real, y: real)
    ensures Abs((a * x + b) - (a * y + b)) == Abs(a) * Abs(x - y)
    ensures a != 0.0 && x != y ==> a * x + b != a * y + b
  {
    assert (a * x + b) - (a * y + b) == a * (x - y);
    AbsMul(a, x - y);
  }

  lemma WeightAffine(v: real, vmin: real, vmax: real, a: real, b: real)
    requires vmax != vmin && a != 0.0
    ensures a * vmax + b != a * vmin + b
    ensures Weight(a * v + b, a * vmin + b, a * vmax + b) == Weight(v, vmin, vmax)
  {
    ScaledGap(a, b, vmax, vmin);
    ScaledGap(a, b, v, vmin);
    DivScale(Abs(v - vmin), Abs(vmax - vmin), Abs(a));
  }

  lemma AffineWeightAt(psi: seq<real>, a: real, b: real, i: int)
    requires a != 0.0 && PsiParameterize(psi).Ok? && 0 <= i < |psi|
    ensures PsiParameterize(Affine(psi, a, b)).Ok?
    ensures PsiParameterize(Affine(psi, a, b)).value[i] == PsiParameterize(psi).value[i]
  {
    var psi' := Affine(psi, a, b);
    var n := |psi|;
    var x, lo, hi := psi[i], psi[0], psi[n - 1];
    assert psi'[i] == a * x + b && psi'[0] == a * lo + b && psi'[n - 1] == a * hi + b;
    WeightAffine(x, lo, hi, a, b);
    WeightAt(psi, i);
    WeightAt(psi', i);
  }

  /** The weights depend only on the shape of ψ along the boundary: any
      affine relabelling ψ ↦ aψ + b with a ≠ 0 (the normalisation of ψ,
      say) leaves them unchanged. */
  lemma PsiParameterizeAffine(psi: seq<real>, a: real, b: real)
    requires a != 0.0
    ensures PsiParameterize(Affine(psi, a, b)) == PsiParameterize(psi)
  {
    var psi' := Affine(psi, a, b);
    var n := |psi|;
    if PsiParameterize(psi).Ok? {
      AffineWeightAt(psi, a, b, 0);
      var u, u' := PsiParameterize(psi).value, PsiParameterize(psi').value;
      forall i | 0 <= i < n
        ensures u'[i] == u[i]
      {
        AffineWeightAt(psi, a, b, i);
      }
      assert u' == u;
    } else if n > 0 {
      assert psi'[n - 1] == psi'[0];
    }
  }

  lemma WeightComplement(a: real, b: real, x: real)
    requires a != b && (a <= x <= b || b <= x <= a)
    ensures Weight(x, b, a) == 1.0 - Weight(x, a, b)
  {
    var d := Abs(b - a);
    assert Abs(a - b) == d;
    assert Abs(x - b) == d - Abs(x - a);
    DivSub(d, Abs(x - a), d);
    DivSelf(d);
  }

  /** Walking a monotone boundary backwards gives the complementary weights:
      the weight of a sample seen from the other end is one minus its weight. */
  lemma PsiParameterizeReverse(psi: seq<real>)
    requires PsiParameterize(psi).Ok? && Monotone(psi)
    ensures PsiParameterize(Rev(psi)).Ok?
    ensures var u, v := PsiParameterize(psi).value, PsiParameterize(Rev(psi)).value;
            forall i :: 0 <= i < |psi| ==> v[i] == 1.0 - u[|psi| - 1 - i]
  {
    var n := |psi|;
    var r := Rev(psi);
    assert r[0] == psi[n - 1] && r[n - 1] == psi[0];
    var u, v := PsiParameterize(psi).value, PsiParameterize(r).value;
    forall i | 0 <= i < n
      ensures v[i] == 1.0 - u[n - 1 - i]
    {
      var j := n - 1 - i;
      assert r[i] == psi[j];
      assert psi[0] <= psi[j] <= psi[n - 1] || psi[n - 1] <= psi[j] <= psi[0];
      WeightAt(psi, j);
      WeightAt(r, i);
      WeightComplement(psi[0], psi[n - 1], psi[j]);
    }
  }
}
