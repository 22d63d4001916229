/** Element-wise numeric helpers that stand in for the numpy calls the attack
    makes on images: np.sign, np.clip, "image + epsilon * array" and
    np.linspace. Pixels, gradients and epsilons are mathematical reals. */
module ImageOps {

  /** np.clip on one value: raise it to lo, then cap it at hi. When lo > hi
      numpy's order of the two operations makes every value hi. */
  function Clip(v: real, lo: real, hi: real): (c: real)
    ensures c <= hi
    ensures lo <= hi ==> lo <= c
    ensures lo <= v <= hi ==> c == v
    ensures v < lo && lo <= hi ==> c == lo
    ensures hi < v ==> c == hi
    ensures hi < lo ==> c == hi
  {
    var raised := if v < lo then lo else v;
    if raised > hi then hi else raised
  }

  /** Clipping moves a value no further from a point inside the bounds
      than it already was. */
  lemma ClipNonExpansive(v: real, u: real, lo: real, hi: real)
    requires lo <= u <= hi
    ensures v >= u ==> u <= Clip(v, lo, hi) <= v
    ensures v <= u ==> v <= Clip(v, lo, hi) <= u
  {
  }

  /** Every coordinate of x lies in [lo, hi]. */
  predicate InBounds(x: seq<real>, lo: real, hi: real)
  {
    forall i :: 0 <= i < |x| ==> lo <= x[i] <= hi
  }

  /** np.clip on a whole image. */
  function ClipAll(x: seq<real>, lo: real, hi: real): (r: seq<real>)
    ensures |r| == |x|
    ensures forall i :: 0 <= i < |x| ==> r[i] == Clip(x[i], lo, hi)
    ensures lo <= hi ==> InBounds(r, lo, hi)
    ensures InBounds(x, lo, hi) ==> r == x
  {
    seq(|x|, i requires 0 <= i < |x| => Clip(x[i], lo, hi))
  }

  /** Clipping an image that has already been clipped changes nothing. */
  lemma ClipAllIdempotent(x: seq<real>, lo: real, hi: real)
    requires lo <= hi
    ensures ClipAll(ClipAll(x, lo, hi), lo, hi) == ClipAll(x, lo, hi)
  {
  }

  /** np.sign(g) * scale: each component is scale, -scale or 0 as the
      gradient's component is positive, negative or zero. */
  function ScaledSign(g: seq<real>, scale: real): (r: seq<real>)
    ensures |r| == |g|
    ensures forall i :: 0 <= i < |g| ==> r[i] == scale || r[i] == -scale || r[i] == 0.0
    ensures forall i :: 0 <= i < |g| ==>
      && (g[i] > 0.0 ==> r[i] == scale)
      && (g[i] < 0.0 ==> r[i] == -scale)
      && (g[i] == 0.0 ==> r[i] == 0.0)
  {
    seq(|g|, i requires 0 <= i < |g| => if g[i] > 0.0 then scale else if g[i] < 0.0 then -scale else 0.0)
  }

  /** x + e * d, coordinate by coordinate. */
  function AddScaled(x: seq<real>, e: real, d: seq<real>): (r: seq<real>)
    requires |x| == |d|
    ensures |r| == |x|
    ensures e == 0.0 ==> r == x
  {
    seq(|x|, i requires 0 <= i < |x| => x[i] + e * d[i])
  }

  /** x + d, coordinate by coordinate. */
  function Add(x: seq<real>, d: seq<real>): (r: seq<real>)
    requires |x| == |d|
    ensures |r| == |x|
  {
    seq(|x|, i requires 0 <= i < |x| => x[i] + d[i])
  }

  /** Add is the coordinate-wise sum. Kept apart from Add's own contract so
      that proofs about repeated updates do not carry it. */
  lemma AddCoordinates(x: seq<real>, d: seq<real>)
    requires |x| == |d|
    ensures forall i :: 0 <= i < |x| ==> Add(x, d)[i] == x[i] + d[i]
  {
  }

  /** Scaling the signs by e afterwards is scaling them by e * (hi - lo) in
      the first place. */
  lemma AddScaledSign(x: seq<real>, e: real, g: seq<real>, lo: real, hi: real)
    requires |x| == |g|
    ensures AddScaled(x, e, ScaledSign(g, hi - lo)) == Add(x, ScaledSign(g, e * (hi - lo)))
  {
    var scale := hi - lo;
    var s, t := ScaledSign(g, scale), ScaledSign(g, e * (hi - lo));
    forall i | 0 <= i < |x|
      ensures AddScaled(x, e, s)[i] == Add(x, t)[i]
    {
      if g[i] > 0.0 {
        assert s[i] == scale;
      } else if g[i] < 0.0 {
        assert s[i] == -scale;
      } else {
        assert s[i] == 0.0;
      }
    }
  }

  /** The spacing np.linspace uses with endpoint=True. */
  function LinspaceStep(start: real, stop: real, num: nat): (step: real)
    requires num >= 2
    ensures start < stop ==> step > 0.0
  {
    (stop - start) / ((num - 1) as real)
  }

  /** np.linspace(start, stop, num) with its default endpoint=True: sample k
      is start + k * step, except that the last sample is set to stop itself;
      a single sample is start. */
  function Linspace(start: real, stop: real, num: nat): (r: seq<real>)
    ensures |r| == num
    ensures num >= 1 ==> r[0] == start
    ensures num >= 2 ==> r[num - 1] == stop
  {
    if num <= 1 then
      seq(num, k => start)
    else
      seq(num, k requires 0 <= k < num =>
        if k == num - 1 then stop else start + (k as real) * LinspaceStep(start, stop, num))
  }

  /** With start < stop the samples are strictly ascending. */
  lemma LinspaceAscending(start: real, stop: real, num: nat)
    requires start < stop
    ensures forall j, k :: 0 <= j < k < num ==> Linspace(start, stop, num)[j] < Linspace(start, stop, num)[k]
  {
    forall j, k | 0 <= j < k < num
      ensures Linspace(start, stop, num)[j] < Linspace(start, stop, num)[k]
    {
      LinspacePair(start, stop, num, j, k);
    }
  }

  /** One pair of LinspaceAscending. */
  lemma LinspacePair(start: real, stop: real, num: nat, j: nat, k: nat)
    requires start < stop && j < k < num
    ensures Linspace(start, stop, num)[j] < Linspace(start, stop, num)[k]
  {
    var r, step := Linspace(start, stop, num), LinspaceStep(start, stop, num);
    var a, b := (j as real) * step, (k as real) * step;
    MoreSteps(j, k, step);
    assert a < b;
    assert r[j] == start + a;
    if k == num - 1 {
      LastStep(start, stop, num, k);
      assert start + b == stop;
      assert r[k] == stop;
    } else {
      assert r[k] == start + b;
    }
  }

  /** num - 1 steps of the spacing span the whole interval. */
  lemma LastStep(start: real, stop: real, num: nat, k: nat)
    requires num >= 2 && k == num - 1
    ensures start + (k as real) * LinspaceStep(start, stop, num) == stop
  {
  }

  /** More of a positive step reaches further. */
  lemma MoreSteps(j: nat, k: nat, step: real)
    requires j < k && step > 0.0
    ensures (j as real) * step < (k as real) * step
  {
    var a, b := j as real, k as real;
    assert b * step - a * step == (b - a) * step;
  }
}
