# Iterative gradient-sign attack

A Dafny model of `IteratorGradientSignAttack._apply`, the iterative fast
gradient-sign attack of Kurakin, Goodfellow and Bengio (arXiv:1607.02533) in
`fluid/adversarial/advbox/attacks/iterator_gradientsign.py`.

The attack takes a batch of one (image, label) sample, an epsilon argument
and a step count. It does the following:

- It records the classifier's prediction on the original image (`pre_label`).
- It turns an integer epsilon argument `n` into the schedule
  `np.linspace(0, 1, n + 1)`. An iterable argument is used as it is.
- For each epsilon in the schedule, it restarts from the original image and
  takes up to `steps` updates. Each update is
  `image := clip(image + epsilon * sign(gradient) * (max - min), min, max)`.
- It returns the first updated image whose prediction differs from
  `pre_label`, or nothing when the search is exhausted.

Files:

- `wrappers.dfy`: `Option` and `Result`.
- `image_ops.dfy` (module `ImageOps`): the element-wise numpy operations the
  attack uses: `np.clip`, `np.sign(g) * scale`, the additions and
  `np.linspace`.
- `iterator_gradient_sign.dfy` (module `IteratorGradientSign`), in three
  parts:
  - the classifier oracle `Model`, the epsilon argument `Epsilons` and the
    error cases `AttackError`;
  - a reference definition of the search (`Step`, `Iterate`, `Trial`,
    `Search`, `AttackSpec`) and the ghost count of the updates it takes
    (`TrialUpdates`, `SearchUpdates`);
  - the attack itself as the imperative methods `RunTrial` (the inner
    `for _ in range(steps)` loop) and `Apply` (the batch check, the schedule
    and the outer `for epsilon in epsilons` loop). Both are proved equal to
    the reference definition.

  Lemmas about the reference definition characterise the result:
  - the first flip in (trial, step) order wins;
  - the result is absent exactly when no update flips the prediction;
  - failed trials leave no trace, because each trial restarts from the
    original image;
  - a trial with epsilon 0 from an original image inside the bounds cannot
    succeed.

  The ghost out-parameter `updates` of `Apply` equals `SearchUpdates`. When
  the first flip is at trial `i`, step `t`, that count is
  `i * steps + t`, so no later (epsilon, step) pair is evaluated.

Behaviour of the code worth stating:

- A returned image is classified differently from the prediction on the
  original image (`pre_label`, line 27). It is not compared with the label
  supplied with the sample.
- An explicit schedule is walked in its given order and is not sorted. Only
  the integer form is ascending.
- A batch whose length is not one fails an `assert` (line 26). Here that is the
  error `BatchSizeNotOne`.
- A count below -1 makes `np.linspace` raise, because `num` is negative.
  Here that is the error `NegativeSampleCount`.
- The count -1 gives an empty schedule and the count 0 gives `[0.0]`.
- The exhausted search returns `None` by falling off the end of the function
  after line 43.
- The defaults `epsilons=100` and `steps=10` (line 16) are the default
  arguments of `Apply`.

## Model

| member | source | states |
|---|---|---|
| ImageOps.Clip | fluid/adversarial/advbox/attacks/iterator_gradientsign.py:40 | np.clip of one value: never above hi, never below lo when lo <= hi, the identity inside the bounds, lo below them, hi above them, and hi for every value when lo > hi |
| ImageOps.ClipNonExpansive | fluid/adversarial/advbox/attacks/iterator_gradientsign.py:40 | clipping moves a value towards any point inside the bounds and never past it |
| ImageOps.ClipAll | fluid/adversarial/advbox/attacks/iterator_gradientsign.py:40 | element-wise clip: same length, each coordinate clipped, the result inside the bounds, an in-bounds image unchanged |
| ImageOps.ClipAllIdempotent | fluid/adversarial/advbox/attacks/iterator_gradientsign.py:40 | re-clipping a clipped image changes nothing |
| ImageOps.ScaledSign | fluid/adversarial/advbox/attacks/iterator_gradientsign.py:38 | np.sign(gradient) * (max - min) has the gradient's length; entry i is the scale where gradient[i] is positive, minus the scale where it is negative and 0 where it is zero |
| ImageOps.Add | fluid/adversarial/advbox/attacks/iterator_gradientsign.py:39 | the image plus an update keeps the image's length |
| ImageOps.AddCoordinates | fluid/adversarial/advbox/attacks/iterator_gradientsign.py:39 | coordinate i of the sum is the image's coordinate i plus the update's |
| ImageOps.AddScaled | fluid/adversarial/advbox/attacks/iterator_gradientsign.py:39 | image + epsilon * d keeps the length, and epsilon 0 leaves the image unchanged |
| ImageOps.AddScaledSign | fluid/adversarial/advbox/attacks/iterator_gradientsign.py:38-39 | adding epsilon * (sign * (max - min)) equals adding the signs scaled by epsilon * (max - min), the form the model's Step uses |
| ImageOps.LinspaceStep | fluid/adversarial/advbox/attacks/iterator_gradientsign.py:32 | numpy's spacing (stop - start) / (num - 1) is positive when start < stop |
| ImageOps.LastStep | fluid/adversarial/advbox/attacks/iterator_gradientsign.py:32 | num - 1 spacings from start reach exactly stop |
| ImageOps.Linspace | fluid/adversarial/advbox/attacks/iterator_gradientsign.py:32 | np.linspace has num samples, the first is start and the last is stop |
| ImageOps.LinspaceAscending | fluid/adversarial/advbox/attacks/iterator_gradientsign.py:32 | with start < stop the samples are strictly ascending |
| IteratorGradientSign.RangeLength | fluid/adversarial/advbox/attacks/iterator_gradientsign.py:36 | range(steps) has no iterations for steps <= 0 and steps iterations otherwise |
| IteratorGradientSign.ResolveSchedule | fluid/adversarial/advbox/attacks/iterator_gradientsign.py:31-32 | an explicit schedule is used unchanged; a count n fails exactly when n < -1 and otherwise gives n + 1 epsilons |
| IteratorGradientSign.CountSchedule | fluid/adversarial/advbox/attacks/iterator_gradientsign.py:31-32 | a count n >= 1 gives n + 1 epsilons; epsilon k is k / n, the first is 0, the last is 1, and they strictly ascend |
| IteratorGradientSign.DegenerateCountSchedule | fluid/adversarial/advbox/attacks/iterator_gradientsign.py:32 | count 0 gives the single epsilon 0 and count -1 the empty schedule |
| IteratorGradientSign.StepSize | fluid/adversarial/advbox/attacks/iterator_gradientsign.py:38-39 | the distance epsilon * (max - min) is non-negative for epsilon >= 0 and zero for epsilon 0 |
| IteratorGradientSign.Step | fluid/adversarial/advbox/attacks/iterator_gradientsign.py:37-40 | one update keeps the image's length and ends inside [min, max] |
| IteratorGradientSign.StepDelta | fluid/adversarial/advbox/attacks/iterator_gradientsign.py:37-40 | from an in-bounds image, with epsilon >= 0, an update moves each coordinate by at most epsilon * (max - min), upwards where the gradient is positive, downwards where it is negative, not at all where it is zero |
| IteratorGradientSign.Iterate | fluid/adversarial/advbox/attacks/iterator_gradientsign.py:36-40 | t updates keep the length and, for t >= 1, end inside [min, max] |
| IteratorGradientSign.Trial | fluid/adversarial/advbox/attacks/iterator_gradientsign.py:36-43 | a trial's result is classified differently from pre_label, keeps the length and lies inside [min, max] |
| IteratorGradientSign.TrialUpdates | fluid/adversarial/advbox/attacks/iterator_gradientsign.py:36-43 | a trial takes at most steps updates, and at least one when steps >= 1 |
| IteratorGradientSign.Search | fluid/adversarial/advbox/attacks/iterator_gradientsign.py:34-43 | the search's result is classified differently from pre_label, keeps the length and lies inside [min, max]; steps <= 0 gives no result |
| IteratorGradientSign.SearchUpdates | fluid/adversarial/advbox/attacks/iterator_gradientsign.py:34-43 | the search takes at most len(schedule) * steps updates |
| IteratorGradientSign.AttackSpec | fluid/adversarial/advbox/attacks/iterator_gradientsign.py:26-43 | a batch not of size one fails; otherwise the attack fails only for a count below -1; a result is classified differently from the original image's prediction, keeps the length and lies inside [min, max]; steps <= 0 gives no result |
| IteratorGradientSign.TrialNoneIffNoFlip | fluid/adversarial/advbox/attacks/iterator_gradientsign.py:36-43 | a trial returns nothing if and only if none of its updates flips the prediction, and then it takes all of them |
| IteratorGradientSign.TrialSome | fluid/adversarial/advbox/attacks/iterator_gradientsign.py:36-43 | a trial that returns an image returns the image after its first flipping update t, having taken exactly t updates |
| IteratorGradientSign.TrialFirstFlip | fluid/adversarial/advbox/attacks/iterator_gradientsign.py:36-43 | conversely, the first flipping update t of a trial determines its result and its update count |
| IteratorGradientSign.FailedTrialsAreForgotten | fluid/adversarial/advbox/attacks/iterator_gradientsign.py:34-35 | because every trial restarts from the original image, a prefix of failed trials leaves the rest of the search as it would be alone, after all of their updates |
| IteratorGradientSign.SearchNoneIffNoFlip | fluid/adversarial/advbox/attacks/iterator_gradientsign.py:34-43 | the search returns nothing if and only if no (epsilon, step) pair flips the prediction, and then it takes len(schedule) * steps updates |
| IteratorGradientSign.SearchSome | fluid/adversarial/advbox/attacks/iterator_gradientsign.py:34-43 | a returned image is the one from the original image at the first flip (i, t) in schedule order, after exactly i * steps + t updates |
| IteratorGradientSign.SearchFirstFlip | fluid/adversarial/advbox/attacks/iterator_gradientsign.py:34-43 | conversely, the first flip (i, t) in schedule order determines the result and the update count i * steps + t |
| IteratorGradientSign.ZeroEpsilonStep | fluid/adversarial/advbox/attacks/iterator_gradientsign.py:38-40 | an update with epsilon 0 leaves an in-bounds image unchanged |
| IteratorGradientSign.ZeroEpsilonNeverFlips | fluid/adversarial/advbox/attacks/iterator_gradientsign.py:36-43 | a trial with epsilon 0 from an in-bounds original image never succeeds |
| IteratorGradientSign.ZeroEpsilonNeverWins | fluid/adversarial/advbox/attacks/iterator_gradientsign.py:32-43 | from an original image inside the bounds, a leading epsilon 0, as in every counted schedule, changes only the update count, not the result |
| IteratorGradientSign.RunTrial | fluid/adversarial/advbox/attacks/iterator_gradientsign.py:35-43 | the inner loop returns what Trial specifies, after the updates TrialUpdates counts |
| IteratorGradientSign.Apply | fluid/adversarial/advbox/attacks/iterator_gradientsign.py:26-43 | the attack, with the source's defaults of a count of 100 and 10 steps, returns what AttackSpec specifies, after the updates SearchUpdates counts |

## Left out

- The classifier's `predict`, `gradient` and `bounds` calls (lines 27-29, 37 and 41) are foreign neural-network code. They are the fields of `Model`: two deterministic functions and the two bounds. The fact that a gradient has its image's shape is the precondition `ShapePreserving`.
- IEEE floating-point rounding in numpy's arithmetic and in `np.linspace` is not modelled. Pixels, gradients and epsilons are mathematical reals.
- `reshape` and array shapes (line 35) are not modelled. Images are flat sequences.
- The first `gradient` call (line 28) is not modelled. Its only effect is to supply a shape for `reshape`.
- The placeholder label `0` passed to `predict` (line 41) is not modelled. `Model.predict` takes only the image.
- The `Attack` base class is not part of this model.
- The `collections.Iterable` runtime test (line 31) is replaced by the two cases of `Epsilons`. A non-integer scalar epsilon argument is not modelled.
- Step: adds the signs already scaled by epsilon * (max - min) rather than epsilon times the scaled signs. `ImageOps.AddScaledSign` proves the two are equal. `RunTrial` does the same: its local `delta` is the source's `epsilon * gradient_sign`, not `gradient_sign`.
- The `gradient` and `adv_label` variables that the loop rebinds are locals of `RunTrial`. Their values after the function returns are not observable and are not modelled.
