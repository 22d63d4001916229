/** The iterative fast-gradient-sign attack (Kurakin, Goodfellow and Bengio,
    "Adversarial examples in the physical world", arXiv:1607.02533).

    For a single (image, label) sample the attack records the classifier's
    prediction on the original image and then, for each epsilon of a
    schedule in order, restarts from the original image and takes up to
    `steps` updates
        image := clip(image + epsilon * sign(gradient) * (hi - lo), lo, hi)
    returning the first updated image whose predicted class differs from the
    original prediction. The classifier is an abstract deterministic oracle. */
module IteratorGradientSign {
  import opened Wrappers
  import opened ImageOps

  /** A flattened image. */
  type Image = seq<real>

  /** One element of the attack's input batch. */
  datatype Sample = Sample(image: Image, trueLabel: int)

  /** The classifier the attack queries: `predict` is the arg-maxed class of an
      image, `gradient` the loss gradient at an image for a label, and
      [lo, hi] the valid pixel range. */
  datatype Model = Model(predict: Image -> int, gradient: (Image, int) -> Image, lo: real, hi: real)

  /** The epsilon argument: a sample count for an evenly spaced schedule in
      [0, 1], or an explicit schedule. */
  datatype Epsilons = Count(n: int) | Schedule(values: seq<real>)

  /** The ways the attack stops without a search: a batch that is not of size
      one, and a count that np.linspace refuses (fewer than zero samples). */
  datatype AttackError = BatchSizeNotOne | NegativeSampleCount

  /** The gradient has the shape of the image it is taken at. */
  ghost predicate ShapePreserving(m: Model)
  {
    forall x: Image, trueLabel: int :: |m.gradient(x, trueLabel)| == |x|
  }

  /** The number of iterations of Python's range(steps). */
  function RangeLength(steps: int): (n: nat)
    ensures steps <= 0 ==> n == 0
    ensures steps > 0 ==> n == steps
  {
    if steps < 0 then 0 else steps
  }

  // ---------------------------------------------------------------------
  // The epsilon schedule

  /** Resolves the epsilon argument into the schedule the search walks. */
  function ResolveSchedule(epsilons: Epsilons): (r: Result<seq<real>, AttackError>)
    ensures epsilons.Schedule? ==> r == Success(epsilons.values)
    ensures epsilons.Count? ==> (r.Failure? <==> epsilons.n < -1)
    ensures r.Failure? ==> r.error == NegativeSampleCount
    ensures epsilons.Count? && r.Success? ==> |r.value| == epsilons.n + 1
  {
    match epsilons
    case Schedule(values) => Success(values)
    case Count(n) =>
      if n + 1 < 0 then Failure(NegativeSampleCount) else Success(Linspace(0.0, 1.0, n + 1))
  }

  /** A count n >= 1 gives n + 1 samples k / n: 0 first, 1 last, strictly
      ascending. */
  lemma CountSchedule(n: int)
    requires n >= 1
    ensures ResolveSchedule(Count(n)).Success?
    ensures var r := ResolveSchedule(Count(n)).value;
      && |r| == n + 1
      && r[0] == 0.0 && r[n] == 1.0
      && (forall k :: 0 <= k <= n ==> r[k] == (k as real) / (n as real))
      && (forall j, k :: 0 <= j < k <= n ==> r[j] < r[k])
  {
    var r := ResolveSchedule(Count(n)).value;
    assert r == Linspace(0.0, 1.0, n + 1);
    LinspaceAscending(0.0, 1.0, n + 1);
    var num := n + 1;
    forall k | 0 <= k <= n
      ensures r[k] == (k as real) / (n as real)
    {
      if k < n {
        UnitSpacing(num, n, k);
      }
    }
  }

  /** Over [0, 1] with num = n + 1 samples the spacing is 1 / n. */
  lemma UnitSpacing(num: nat, n: nat, k: nat)
    requires num >= 2 && n == num - 1
    ensures (k as real) * LinspaceStep(0.0, 1.0, num) == (k as real) / (n as real)
  {
    assert LinspaceStep(0.0, 1.0, num) == 1.0 / (n as real);
  }

  /** The degenerate counts: 0 gives the single epsilon 0, -1 the empty
      schedule. */
  lemma DegenerateCountSchedule()
    ensures ResolveSchedule(Count(0)) == Success([0.0])
    ensures ResolveSchedule(Count(-1)) == Success([])
  {
    assert Linspace(0.0, 1.0, 1) == [0.0];
  }

  // ---------------------------------------------------------------------
  // One update step and the images a trial visits

  /** How far one update moves a coordinate before clipping: epsilon as a
      fraction of the bounds' range. */
  function StepSize(m: Model, e: real): (d: real)
    ensures e >= 0.0 && m.lo <= m.hi ==> d >= 0.0
    ensures e == 0.0 ==> d == 0.0
  {
    e * (m.hi - m.lo)
  }

  /** One update: the gradient at the current image for the sample's label,
      its sign scaled by the bounds' range and by epsilon, added and clipped.
      Epsilon is multiplied into the range before the signs are applied;
      ImageOps.AddScaledSign shows this equals the source's
      x + epsilon * (sign(gradient) * (hi - lo)). */
  function Step(m: Model, trueLabel: int, e: real, x: Image): (y: Image)
    requires ShapePreserving(m)
    ensures |y| == |x|
    ensures m.lo <= m.hi ==> InBounds(y, m.lo, m.hi)
  {
    var gradient := m.gradient(x, trueLabel);
    ClipAll(Add(x, ScaledSign(gradient, StepSize(m, e))), m.lo, m.hi)
  }

  /** From an image inside the bounds, a step with epsilon e >= 0 moves each
      coordinate by at most StepSize(m, e) = e * (hi - lo), in the direction of the gradient's
      sign, and not at all where the gradient is zero. */
  lemma StepDelta(m: Model, trueLabel: int, e: real, x: Image, j: int)
    requires ShapePreserving(m)
    requires m.lo <= m.hi && InBounds(x, m.lo, m.hi)
    requires e >= 0.0 && 0 <= j < |x|
    ensures x[j] - StepSize(m, e) <= Step(m, trueLabel, e, x)[j] <= x[j] + StepSize(m, e)
    ensures m.gradient(x, trueLabel)[j] > 0.0 ==> Step(m, trueLabel, e, x)[j] >= x[j]
    ensures m.gradient(x, trueLabel)[j] < 0.0 ==> Step(m, trueLabel, e, x)[j] <= x[j]
    ensures m.gradient(x, trueLabel)[j] == 0.0 ==> Step(m, trueLabel, e, x)[j] == x[j]
  {
    var g := m.gradient(x, trueLabel);
    assert |g| == |x|;
    SignedMove(x[j], StepSize(m, e), ScaledSign(g, StepSize(m, e))[j], g[j], m.lo, m.hi);
  }

  /** One coordinate of StepDelta: v moved by d, the sign of g times er. */
  lemma SignedMove(v: real, er: real, d: real, g: real, lo: real, hi: real)
    requires lo <= v <= hi && er >= 0.0
    requires g > 0.0 ==> d == er
    requires g < 0.0 ==> d == -er
    requires g == 0.0 ==> d == 0.0
    ensures v - er <= Clip(v + d, lo, hi) <= v + er
    ensures g > 0.0 ==> Clip(v + d, lo, hi) >= v
    ensures g < 0.0 ==> Clip(v + d, lo, hi) <= v
    ensures g == 0.0 ==> Clip(v + d, lo, hi) == v
  {
    ClipNonExpansive(v + d, v, lo, hi);
  }

  /** The image after t updates with epsilon e starting from x. */
  function Iterate(m: Model, trueLabel: int, e: real, x: Image, t: nat): (y: Image)
    requires ShapePreserving(m)
    ensures |y| == |x|
    ensures t >= 1 && m.lo <= m.hi ==> InBounds(y, m.lo, m.hi)
    decreases t
  {
    if t == 0 then x else Iterate(m, trueLabel, e, Step(m, trueLabel, e, x), t - 1)
  }

  /** The prediction on y differs from the original prediction pre. */
  predicate Flips(m: Model, pre: int, y: Image)
  {
    m.predict(y) != pre
  }

  // ---------------------------------------------------------------------
  // The reference search

  /** One epsilon trial: up to k updates from x, stopping at the first image
      whose prediction differs from pre. */
  function Trial(m: Model, trueLabel: int, pre: int, e: real, x: Image, k: int): (r: Option<Image>)
    requires ShapePreserving(m)
    ensures r.Some? ==> Flips(m, pre, r.value) && |r.value| == |x|
    ensures r.Some? && m.lo <= m.hi ==> InBounds(r.value, m.lo, m.hi)
    decreases k
  {
    if k <= 0 then None
    else
      var y := Step(m, trueLabel, e, x);
      if Flips(m, pre, y) then Some(y) else Trial(m, trueLabel, pre, e, y, k - 1)
  }

  /** The number of updates a trial performs. */
  ghost function TrialUpdates(m: Model, trueLabel: int, pre: int, e: real, x: Image, k: int): (n: nat)
    requires ShapePreserving(m)
    ensures n <= RangeLength(k)
    ensures k >= 1 ==> n >= 1
    decreases k
  {
    if k <= 0 then 0
    else
      var y := Step(m, trueLabel, e, x);
      if Flips(m, pre, y) then 1 else 1 + TrialUpdates(m, trueLabel, pre, e, y, k - 1)
  }

  /** The whole search: every epsilon of the schedule in order, each trial
      starting again from the original image x0. */
  function Search(m: Model, x0: Image, trueLabel: int, pre: int, sched: seq<real>, steps: int): (r: Option<Image>)
    requires ShapePreserving(m)
    ensures r.Some? ==> Flips(m, pre, r.value) && |r.value| == |x0|
    ensures r.Some? && m.lo <= m.hi ==> InBounds(r.value, m.lo, m.hi)
    ensures steps <= 0 ==> r == None
    decreases |sched|
  {
    if sched == [] then None
    else
      match Trial(m, trueLabel, pre, sched[0], x0, steps)
      case Some(y) => Some(y)
      case None => Search(m, x0, trueLabel, pre, sched[1..], steps)
  }

  /** The number of updates the whole search performs. */
  ghost function SearchUpdates(m: Model, x0: Image, trueLabel: int, pre: int, sched: seq<real>, steps: int): (n: nat)
    requires ShapePreserving(m)
    ensures n <= |sched| * RangeLength(steps)
    decreases |sched|
  {
    if sched == [] then 0
    else
      var here := TrialUpdates(m, trueLabel, pre, sched[0], x0, steps);
      if Trial(m, trueLabel, pre, sched[0], x0, steps).Some? then here
      else
        var rest := SearchUpdates(m, x0, trueLabel, pre, sched[1..], steps);
        assert |sched| * RangeLength(steps) == RangeLength(steps) + (|sched| - 1) * RangeLength(steps);
        here + rest
  }

  /** What the attack returns for a batch, an epsilon argument and a step
      count. */
  function AttackSpec(m: Model, batch: seq<Sample>, epsilons: Epsilons, steps: int): (r: Result<Option<Image>, AttackError>)
    requires ShapePreserving(m)
    ensures |batch| != 1 ==> r == Failure(BatchSizeNotOne)
    ensures |batch| == 1 ==> (r.Failure? <==> epsilons.Count? && epsilons.n < -1)
    ensures |batch| == 1 && r.Success? && r.value.Some? ==>
      && m.predict(r.value.value) != m.predict(batch[0].image)
      && |r.value.value| == |batch[0].image|
      && (m.lo <= m.hi ==> InBounds(r.value.value, m.lo, m.hi))
    ensures steps <= 0 && r.Success? ==> r.value == None
  {
    if |batch| != 1 then Failure(BatchSizeNotOne)
    else
      var image, trueLabel := batch[0].image, batch[0].trueLabel;
      match ResolveSchedule(epsilons)
      case Failure(err) => Failure(err)
      case Success(sched) => Success(Search(m, image, trueLabel, m.predict(image), sched, steps))
  }

  // ---------------------------------------------------------------------
  // What the search finds

  /** The image after t updates with epsilon e from x flips the prediction. */
  predicate FlipsAt(m: Model, trueLabel: int, pre: int, e: real, x: Image, t: nat)
    requires ShapePreserving(m)
  {
    Flips(m, pre, Iterate(m, trueLabel, e, x, t))
  }

  /** Update t of the trial with epsilon e is the first of that trial to flip. */
  predicate FirstInTrial(m: Model, trueLabel: int, pre: int, e: real, x: Image, t: nat)
    requires ShapePreserving(m)
  {
    && 1 <= t
    && FlipsAt(m, trueLabel, pre, e, x, t)
    && forall s :: 1 <= s < t ==> !FlipsAt(m, trueLabel, pre, e, x, s)
  }

  /** Update t of trial i is the first flip of the whole search, in the order
      (trial, step): no earlier update of this trial flips, and no update of
      an earlier trial does. */
  predicate IsFirstFlip(m: Model, x0: Image, trueLabel: int, pre: int, sched: seq<real>, steps: int, i: int, t: nat)
    requires ShapePreserving(m)
  {
    && 0 <= i < |sched| && t <= steps
    && FirstInTrial(m, trueLabel, pre, sched[i], x0, t)
    && forall j, s :: 0 <= j < i && 1 <= s <= steps ==> !FlipsAt(m, trueLabel, pre, sched[j], x0, s)
  }

  /** Unfolding one update of Iterate. */
  lemma IterateStep(m: Model, trueLabel: int, e: real, x: Image, t: nat)
    requires ShapePreserving(m) && t >= 1
    ensures Iterate(m, trueLabel, e, x, t) == Iterate(m, trueLabel, e, Step(m, trueLabel, e, x), t - 1)
  {
  }

  /** A trial returns nothing exactly when none of its updates flips, and then
      it performs all of them. */
  lemma {:induction false} TrialNoneIffNoFlip(m: Model, trueLabel: int, pre: int, e: real, x: Image, k: int)
    requires ShapePreserving(m)
    ensures Trial(m, trueLabel, pre, e, x, k).None? <==>
      forall t :: 1 <= t <= k ==> !FlipsAt(m, trueLabel, pre, e, x, t)
    ensures Trial(m, trueLabel, pre, e, x, k).None? ==> TrialUpdates(m, trueLabel, pre, e, x, k) == RangeLength(k)
    decreases k
  {
    if k > 0 {
      var y := Step(m, trueLabel, e, x);
      NoFlipShift(m, trueLabel, pre, e, x, k);
      if !Flips(m, pre, y) {
        TrialNoneIffNoFlip(m, trueLabel, pre, e, y, k - 1);
      }
    }
  }

  /** No update of a k-update trial flips exactly when the first does not
      and no update of the (k - 1)-update trial from the next image does. */
  lemma NoFlipShift(m: Model, trueLabel: int, pre: int, e: real, x: Image, k: int)
    requires ShapePreserving(m) && k >= 1
    ensures FlipsAt(m, trueLabel, pre, e, x, 1) == Flips(m, pre, Step(m, trueLabel, e, x))
    ensures (forall t :: 1 <= t <= k ==> !FlipsAt(m, trueLabel, pre, e, x, t)) <==>
      && !Flips(m, pre, Step(m, trueLabel, e, x))
      && forall t :: 1 <= t <= k - 1 ==> !FlipsAt(m, trueLabel, pre, e, Step(m, trueLabel, e, x), t)
  {
    var y := Step(m, trueLabel, e, x);
    assert Iterate(m, trueLabel, e, x, 1) == y;
    forall t | 2 <= t <= k
      ensures FlipsAt(m, trueLabel, pre, e, x, t) == FlipsAt(m, trueLabel, pre, e, y, t - 1)
    {
      IterateStep(m, trueLabel, e, x, t);
    }
    if forall t :: 1 <= t <= k ==> !FlipsAt(m, trueLabel, pre, e, x, t) {
      forall t | 1 <= t <= k - 1
        ensures !FlipsAt(m, trueLabel, pre, e, y, t)
      {
        assert !FlipsAt(m, trueLabel, pre, e, x, t + 1);
      }
    }
  }

  /** A trial that returns an image returns the one at its first flip, after
      exactly that many updates. */
  lemma {:induction false} TrialSome(m: Model, trueLabel: int, pre: int, e: real, x: Image, k: int)
    requires ShapePreserving(m)
    requires Trial(m, trueLabel, pre, e, x, k).Some?
    ensures exists t: nat ::
      && t <= k && FirstInTrial(m, trueLabel, pre, e, x, t)
      && Trial(m, trueLabel, pre, e, x, k).value == Iterate(m, trueLabel, e, x, t)
      && TrialUpdates(m, trueLabel, pre, e, x, k) == t
    decreases k
  {
    var y := Step(m, trueLabel, e, x);
    assert Iterate(m, trueLabel, e, x, 1) == y;
    if Flips(m, pre, y) {
      assert FirstInTrial(m, trueLabel, pre, e, x, 1);
    } else {
      TrialSome(m, trueLabel, pre, e, y, k - 1);
      var t: nat :| t <= k - 1 && FirstInTrial(m, trueLabel, pre, e, y, t)
        && Trial(m, trueLabel, pre, e, y, k - 1).value == Iterate(m, trueLabel, e, y, t)
        && TrialUpdates(m, trueLabel, pre, e, y, k - 1) == t;
      IterateStep(m, trueLabel, e, x, t + 1);
      forall s | 1 <= s < t + 1
        ensures !FlipsAt(m, trueLabel, pre, e, x, s)
      {
        if s >= 2 {
          IterateStep(m, trueLabel, e, x, s);
          assert !FlipsAt(m, trueLabel, pre, e, y, s - 1);
        }
      }
      assert FirstInTrial(m, trueLabel, pre, e, x, t + 1);
    }
  }

  /** Conversely, the first flip of a trial determines what it returns. */
  lemma {:induction false} TrialFirstFlip(m: Model, trueLabel: int, pre: int, e: real, x: Image, k: int, t: nat)
    requires ShapePreserving(m)
    requires t <= k && FirstInTrial(m, trueLabel, pre, e, x, t)
    ensures Trial(m, trueLabel, pre, e, x, k) == Some(Iterate(m, trueLabel, e, x, t))
    ensures TrialUpdates(m, trueLabel, pre, e, x, k) == t
    decreases k
  {
    var y := Step(m, trueLabel, e, x);
    assert Iterate(m, trueLabel, e, x, 1) == y;
    IterateStep(m, trueLabel, e, x, t);
    if t >= 2 {
      assert !FlipsAt(m, trueLabel, pre, e, x, 1);
      forall s | 1 <= s < t - 1
        ensures !FlipsAt(m, trueLabel, pre, e, y, s)
      {
        IterateStep(m, trueLabel, e, x, s + 1);
        assert !FlipsAt(m, trueLabel, pre, e, x, s + 1);
      }
      TrialFirstFlip(m, trueLabel, pre, e, y, k - 1, t - 1);
    }
  }

  /** Trials that find nothing leave no trace: each trial restarts from the
      original image, so after a prefix of failed trials the search goes on
      exactly as if it had started at the rest of the schedule. */
  lemma {:induction false} FailedTrialsAreForgotten(m: Model, x0: Image, trueLabel: int, pre: int,
                                                    prefix: seq<real>, rest: seq<real>, steps: int)
    requires ShapePreserving(m)
    requires forall i :: 0 <= i < |prefix| ==> Trial(m, trueLabel, pre, prefix[i], x0, steps).None?
    ensures Search(m, x0, trueLabel, pre, prefix + rest, steps) == Search(m, x0, trueLabel, pre, rest, steps)
    ensures SearchUpdates(m, x0, trueLabel, pre, prefix + rest, steps)
            == |prefix| * RangeLength(steps) + SearchUpdates(m, x0, trueLabel, pre, rest, steps)
    decreases |prefix|
  {
    if prefix != [] {
      var whole, tail := prefix + rest, prefix[1..];
      assert whole[0] == prefix[0] && whole[1..] == tail + rest;
      assert Trial(m, trueLabel, pre, prefix[0], x0, steps).None?;
      TrialNoneIffNoFlip(m, trueLabel, pre, prefix[0], x0, steps);
      forall i | 0 <= i < |tail|
        ensures Trial(m, trueLabel, pre, tail[i], x0, steps).None?
      {
        assert tail[i] == prefix[i + 1];
      }
      FailedTrialsAreForgotten(m, x0, trueLabel, pre, tail, rest, steps);
      MoreTrials(|prefix|, RangeLength(steps));
    } else {
      assert prefix + rest == rest;
    }
  }

  /** n trials of r updates are one trial and n - 1 more. */
  lemma MoreTrials(n: nat, r: nat)
    requires n >= 1
    ensures n * r == r + (n - 1) * r
  {
  }

  /** The search returns nothing exactly when no update of any trial flips,
      and then it performs every update of every trial. */
  lemma {:induction false} SearchNoneIffNoFlip(m: Model, x0: Image, trueLabel: int, pre: int, sched: seq<real>, steps: int)
    requires ShapePreserving(m)
    ensures Search(m, x0, trueLabel, pre, sched, steps).None? <==>
      forall i, t :: 0 <= i < |sched| && 1 <= t <= steps ==> !FlipsAt(m, trueLabel, pre, sched[i], x0, t)
    ensures Search(m, x0, trueLabel, pre, sched, steps).None? ==>
      SearchUpdates(m, x0, trueLabel, pre, sched, steps) == |sched| * RangeLength(steps)
    decreases |sched|
  {
    if sched != [] {
      TrialNoneIffNoFlip(m, trueLabel, pre, sched[0], x0, steps);
      SearchNoneIffNoFlip(m, x0, trueLabel, pre, sched[1..], steps);
      forall i | 1 <= i < |sched|
        ensures sched[1..][i - 1] == sched[i]
      {
      }
      assert |sched| * RangeLength(steps) == RangeLength(steps) + (|sched| - 1) * RangeLength(steps);
    }
  }

  /** A search that returns an image returns the one at its first flip, in the
      order (trial, step), the image reached from the original one with that
      trial's epsilon; every earlier trial ran to the end. */
  lemma {:induction false} SearchSome(m: Model, x0: Image, trueLabel: int, pre: int, sched: seq<real>, steps: int)
    requires ShapePreserving(m)
    requires Search(m, x0, trueLabel, pre, sched, steps).Some?
    ensures exists i, t: nat ::
      && IsFirstFlip(m, x0, trueLabel, pre, sched, steps, i, t)
      && Search(m, x0, trueLabel, pre, sched, steps).value == Iterate(m, trueLabel, sched[i], x0, t)
      && SearchUpdates(m, x0, trueLabel, pre, sched, steps) == i * RangeLength(steps) + t
    decreases |sched|
  {
    if Trial(m, trueLabel, pre, sched[0], x0, steps).Some? {
      TrialSome(m, trueLabel, pre, sched[0], x0, steps);
      var t: nat :| t <= steps && FirstInTrial(m, trueLabel, pre, sched[0], x0, t)
        && Trial(m, trueLabel, pre, sched[0], x0, steps).value == Iterate(m, trueLabel, sched[0], x0, t)
        && TrialUpdates(m, trueLabel, pre, sched[0], x0, steps) == t;
      assert IsFirstFlip(m, x0, trueLabel, pre, sched, steps, 0, t);
      SearchFirstFlip(m, x0, trueLabel, pre, sched, steps, 0, t);
    } else {
      var tail := sched[1..];
      SearchSome(m, x0, trueLabel, pre, tail, steps);
      var i, t: nat :| IsFirstFlip(m, x0, trueLabel, pre, tail, steps, i, t);
      FirstFlipAfterFailure(m, x0, trueLabel, pre, sched, steps, i, t);
      SearchFirstFlip(m, x0, trueLabel, pre, sched, steps, i + 1, t);
    }
  }

  /** Conversely, the first flip of the search determines what it returns
      and how many updates it performs. */
  lemma {:induction false} SearchFirstFlip(m: Model, x0: Image, trueLabel: int, pre: int, sched: seq<real>, steps: int,
                                           i: int, t: nat)
    requires ShapePreserving(m)
    requires IsFirstFlip(m, x0, trueLabel, pre, sched, steps, i, t)
    ensures Search(m, x0, trueLabel, pre, sched, steps) == Some(Iterate(m, trueLabel, sched[i], x0, t))
    ensures SearchUpdates(m, x0, trueLabel, pre, sched, steps) == i * RangeLength(steps) + t
    decreases |sched|
  {
    if i == 0 {
      TrialFirstFlip(m, trueLabel, pre, sched[0], x0, steps, t);
    } else {
      var tail := sched[1..];
      FirstFlipLater(m, x0, trueLabel, pre, sched, steps, i, t);
      SearchFirstFlip(m, x0, trueLabel, pre, tail, steps, i - 1, t);
      MoreTrials(i, RangeLength(steps));
    }
  }

  /** After a first trial that finds nothing, the first flip of the
      schedule's tail is the first flip of the whole schedule. */
  lemma FirstFlipAfterFailure(m: Model, x0: Image, trueLabel: int, pre: int, sched: seq<real>, steps: int, i: int, t: nat)
    requires ShapePreserving(m)
    requires |sched| >= 1 && Trial(m, trueLabel, pre, sched[0], x0, steps).None?
    requires IsFirstFlip(m, x0, trueLabel, pre, sched[1..], steps, i, t)
    ensures TrialUpdates(m, trueLabel, pre, sched[0], x0, steps) == RangeLength(steps)
    ensures IsFirstFlip(m, x0, trueLabel, pre, sched, steps, i + 1, t)
    ensures sched[1..][i] == sched[i + 1]
  {
    TrialNoneIffNoFlip(m, trueLabel, pre, sched[0], x0, steps);
    FirstFlipOfTail(m, x0, trueLabel, pre, sched, steps, i + 1, t);
  }

  /** A first flip in a later trial: the first trial finds nothing after all
      of its updates, and the flip is the first of the schedule's tail. */
  lemma FirstFlipLater(m: Model, x0: Image, trueLabel: int, pre: int, sched: seq<real>, steps: int, i: int, t: nat)
    requires ShapePreserving(m)
    requires IsFirstFlip(m, x0, trueLabel, pre, sched, steps, i, t) && i >= 1
    ensures Trial(m, trueLabel, pre, sched[0], x0, steps).None?
    ensures TrialUpdates(m, trueLabel, pre, sched[0], x0, steps) == RangeLength(steps)
    ensures IsFirstFlip(m, x0, trueLabel, pre, sched[1..], steps, i - 1, t)
    ensures sched[1..][i - 1] == sched[i]
  {
    FirstFlipOfTail(m, x0, trueLabel, pre, sched, steps, i, t);
    TrialNoneIffNoFlip(m, trueLabel, pre, sched[0], x0, steps);
  }

  /** A first flip in a later trial is the first flip of the schedule's tail
      after a first trial in which nothing flips. */
  lemma FirstFlipOfTail(m: Model, x0: Image, trueLabel: int, pre: int, sched: seq<real>, steps: int, i: int, t: nat)
    requires ShapePreserving(m)
    requires |sched| >= 1 && i >= 1
    ensures IsFirstFlip(m, x0, trueLabel, pre, sched, steps, i, t) <==>
      && IsFirstFlip(m, x0, trueLabel, pre, sched[1..], steps, i - 1, t)
      && forall s :: 1 <= s <= steps ==> !FlipsAt(m, trueLabel, pre, sched[0], x0, s)
  {
    var tail := sched[1..];
    if IsFirstFlip(m, x0, trueLabel, pre, sched, steps, i, t) {
      assert tail[i - 1] == sched[i];
      forall j, s | 0 <= j < i - 1 && 1 <= s <= steps
        ensures !FlipsAt(m, trueLabel, pre, tail[j], x0, s)
      {
        assert tail[j] == sched[j + 1];
      }
    }
    if && IsFirstFlip(m, x0, trueLabel, pre, tail, steps, i - 1, t)
       && forall s :: 1 <= s <= steps ==> !FlipsAt(m, trueLabel, pre, sched[0], x0, s)
    {
      assert tail[i - 1] == sched[i];
      forall j, s | 0 <= j < i && 1 <= s <= steps
        ensures !FlipsAt(m, trueLabel, pre, sched[j], x0, s)
      {
        if j >= 1 {
          assert sched[j] == tail[j - 1];
        }
      }
    }
  }

  // ---------------------------------------------------------------------
  // A zero epsilon

  /** A step with epsilon 0 leaves an image inside the bounds unchanged. */
  lemma ZeroEpsilonStep(m: Model, trueLabel: int, x: Image)
    requires ShapePreserving(m)
    requires m.lo <= m.hi && InBounds(x, m.lo, m.hi)
    ensures Step(m, trueLabel, 0.0, x) == x
  {
    var d := ScaledSign(m.gradient(x, trueLabel), StepSize(m, 0.0));
    assert Add(x, d) == x;
  }

  /** A trial with epsilon 0 from an image inside the bounds never flips the
      prediction on that image, whatever the number of steps. */
  lemma {:induction false} ZeroEpsilonNeverFlips(m: Model, trueLabel: int, x: Image, k: int)
    requires ShapePreserving(m)
    requires m.lo <= m.hi && InBounds(x, m.lo, m.hi)
    ensures Trial(m, trueLabel, m.predict(x), 0.0, x, k) == None
    decreases k
  {
    if k > 0 {
      ZeroEpsilonStep(m, trueLabel, x);
      ZeroEpsilonNeverFlips(m, trueLabel, x, k - 1);
    }
  }

  /** So the leading 0 of an evenly spaced schedule only costs its updates:
      the search over [0] + rest finds what the search over rest finds. */
  lemma ZeroEpsilonNeverWins(m: Model, trueLabel: int, x0: Image, rest: seq<real>, steps: int)
    requires ShapePreserving(m)
    requires m.lo <= m.hi && InBounds(x0, m.lo, m.hi)
    ensures Search(m, x0, trueLabel, m.predict(x0), [0.0] + rest, steps)
            == Search(m, x0, trueLabel, m.predict(x0), rest, steps)
    ensures SearchUpdates(m, x0, trueLabel, m.predict(x0), [0.0] + rest, steps)
            == RangeLength(steps) + SearchUpdates(m, x0, trueLabel, m.predict(x0), rest, steps)
  {
    ZeroEpsilonNeverFlips(m, trueLabel, x0, steps);
    FailedTrialsAreForgotten(m, x0, trueLabel, m.predict(x0), [0.0], rest, steps);
  }

  // ---------------------------------------------------------------------
  // The attack itself

  /** The inner loop of the attack: one epsilon trial of up to `steps`
      updates from the original image, leaving early at the first image whose
      prediction differs from pre. The ghost out-parameter counts the
      updates taken. */
  method RunTrial(m: Model, image: Image, trueLabel: int, pre: int, epsilon: real, steps: int)
    returns (found: Option<Image>, ghost updates: nat)
    requires ShapePreserving(m)
    ensures found == Trial(m, trueLabel, pre, epsilon, image, steps)
    ensures updates == TrialUpdates(m, trueLabel, pre, epsilon, image, steps)
  {
    updates := 0;
    var adv := image;
    var t := 0;
    while t < steps
      invariant 0 <= t && (t == 0 || t <= steps)
      invariant Trial(m, trueLabel, pre, epsilon, image, steps) == Trial(m, trueLabel, pre, epsilon, adv, steps - t)
      invariant TrialUpdates(m, trueLabel, pre, epsilon, image, steps)
                == t + TrialUpdates(m, trueLabel, pre, epsilon, adv, steps - t)
      invariant updates == t
    {
      var gradient := m.gradient(adv, trueLabel);
      // epsilon * np.sign(gradient) * (max - min), with epsilon folded into the scale
      var delta := ScaledSign(gradient, StepSize(m, epsilon));
      ghost var from := adv;
      adv := Add(adv, delta);
      adv := ClipAll(adv, m.lo, m.hi);
      assert adv == Step(m, trueLabel, epsilon, from);
      updates := updates + 1;
      var advLabel := m.predict(adv);
      if pre != advLabel {
        return Some(adv), updates;
      }
      t := t + 1;
    }
    return None, updates;
  }

  /** The attack: check the batch, record the original prediction, resolve
      the schedule and run one trial per epsilon in order, each from the
      original image, returning the first image that flips the prediction.
      The ghost out-parameter counts the update steps taken, which shows that
      nothing after the first flip is evaluated. The default arguments are
      those of the source: a count of 100 and 10 steps. */
  method Apply(m: Model, batch: seq<Sample>, epsilons: Epsilons := Count(100), steps: int := 10)
    returns (r: Result<Option<Image>, AttackError>, ghost updates: nat)
    requires ShapePreserving(m)
    ensures r == AttackSpec(m, batch, epsilons, steps)
    ensures |batch| == 1 && r.Success? ==>
      updates == SearchUpdates(m, batch[0].image, batch[0].trueLabel, m.predict(batch[0].image),
                               ResolveSchedule(epsilons).value, steps)
  {
    updates := 0;
    if |batch| != 1 {
      return Failure(BatchSizeNotOne), updates;
    }
    var image, trueLabel := batch[0].image, batch[0].trueLabel;
    var pre := m.predict(image);
    var resolved := ResolveSchedule(epsilons);
    if resolved.Failure? {
      return Failure(resolved.error), updates;
    }
    var sched := resolved.value;
    for i := 0 to |sched|
      invariant Search(m, image, trueLabel, pre, sched, steps) == Search(m, image, trueLabel, pre, sched[i..], steps)
      invariant SearchUpdates(m, image, trueLabel, pre, sched, steps)
                == updates + SearchUpdates(m, image, trueLabel, pre, sched[i..], steps)
    {
      assert sched[i..][0] == sched[i] && sched[i..][1..] == sched[i + 1..];
      var found;
      ghost var taken;
      found, taken := RunTrial(m, image, trueLabel, pre, sched[i], steps);
      updates := updates + taken;
      if found.Some? {
        return Success(found), updates;
      }
    }
    return Success(None), updates;
  }
}
