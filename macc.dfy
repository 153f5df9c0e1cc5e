/**
 The multiply-accumulate primitive that the filter update uses to evaluate its
 weighted sum. Its implementation is not part of this model; it is specified
 here by its contract: the offset plus the dot product of two equal-length
 sequences. The dot product is written as a recursion from the front, and an
 independent back-to-front reference sum shows that the summation order does
 not change the value.
 */
module MultiplyAccumulate {

  /** Sum of the pairwise products x[i] * a[i], accumulated from the front. */
  function Dot(x: seq<real>, a: seq<real>): real
    requires |x| == |a|
  {
    if |x| == 0 then 0.0 else x[0] * a[0] + Dot(x[1..], a[1..])
  }

  /** The same sum, accumulated from the back. */
  function DotBack(x: seq<real>, a: seq<real>): real
    requires |x| == |a|
  {
    if |x| == 0 then 0.0
    else DotBack(x[..|x| - 1], a[..|a| - 1]) + x[|x| - 1] * a[|a| - 1]
  }

  /** Multiply-accumulate: `y0 + sum of x[i] * a[i]`. */
  function Macc(y0: real, x: seq<real>, a: seq<real>): real
    requires |x| == |a|
  {
    y0 + Dot(x, a)
  }

  /** The dot product of a concatenation is the sum of the parts' dot products. */
  lemma {:induction false} DotAppend(x1: seq<real>, a1: seq<real>, x2: seq<real>, a2: seq<real>)
    requires |x1| == |a1| && |x2| == |a2|
    ensures Dot(x1 + x2, a1 + a2) == Dot(x1, a1) + Dot(x2, a2)
  {
    if |x1| == 0 {
      assert x1 + x2 == x2 && a1 + a2 == a2;
    } else {
      assert (x1 + x2)[1..] == x1[1..] + x2;
      assert (a1 + a2)[1..] == a1[1..] + a2;
      DotAppend(x1[1..], a1[1..], x2, a2);
    }
  }

  /** Summation order does not matter: front-to-back equals back-to-front. */
  lemma {:induction false} DotOrderIndependent(x: seq<real>, a: seq<real>)
    requires |x| == |a|
    ensures Dot(x, a) == DotBack(x, a)
  {
    if |x| != 0 {
      var n := |x| - 1;
      DotOrderIndependent(x[..n], a[..n]);
      DotAppend(x[..n], a[..n], x[n..], a[n..]);
      assert x[..n] + x[n..] == x;
      assert a[..n] + a[n..] == a;
      assert Dot(x[n..], a[n..]) == x[n] * a[n] + Dot(x[n..][1..], a[n..][1..]);
    }
  }

  /** The dot product is symmetric in its two arguments. */
  lemma {:induction false} DotSymmetric(x: seq<real>, a: seq<real>)
    requires |x| == |a|
    ensures Dot(x, a) == Dot(a, x)
  {
    if |x| != 0 {
      DotSymmetric(x[1..], a[1..]);
    }
  }

  /** With all weights zero the dot product vanishes, whatever the samples. */
  lemma {:induction false} DotZeroWeights(x: seq<real>, a: seq<real>)
    requires |x| == |a|
    requires forall i :: 0 <= i < |a| ==> a[i] == 0.0
    ensures Dot(x, a) == 0.0
  {
    if |x| != 0 {
      DotZeroWeights(x[1..], a[1..]);
    }
  }

  /** With a single unit weight at index k the dot product selects x[k]. */
  lemma {:induction false} DotUnitWeight(x: seq<real>, a: seq<real>, k: nat)
    requires |x| == |a| && k < |a|
    requires a[k] == 1.0
    requires forall i :: 0 <= i < |a| && i != k ==> a[i] == 0.0
    ensures Dot(x, a) == x[k]
  {
    if k == 0 {
      DotZeroWeights(x[1..], a[1..]);
    } else {
      DotUnitWeight(x[1..], a[1..], k - 1);
    }
  }
}
