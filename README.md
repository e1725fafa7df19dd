# Spline calibration of classifier scores (ml_insights), modelled in Dafny

This project models the probability-calibration core of `ml_insights`.

`calibration_utils.dfy` (module `CalibrationUtils`) models `ml_insights/calibration_utils.py`:

- **Knot selection** in `prob_calibration_function`. The knots are `np.unique` of the scores. Under `knots='sample'` with more than `max_knots` distinct scores, the smallest and largest distinct scores are kept and the shuffled interior is cut with Python slice semantics (a negative stop counts from the end), then everything is sorted.
- **`random.shuffle`** as its Fisher–Yates swap loop. The seeded generator is a parameter `draws`.
- **`_natural_cubic_spline_basis_expansion`** as a method that fills an `array2<real>` column by column. It is proved equal, entry by entry, to the specification function `BasisValue`.
- **`calibrate_scores`**: the basis of new scores on the fixed knots, the fitted regressor as an abstract predictor, and the `force_prob` clip for ridge.
- **`mean_squared_error_trunc`**.

`calibration.dfy` (module `Calibration`) models `SplineCalibratedClassifierCV` from `ml_insights/calibration.py`. It is a class whose `Fit` updates `uncalibratedClassifier` and `calibFunc`:

- **Prefit mode** uses the base estimator itself.
- **k-fold mode** runs the fold loop, which scatters each fold's scores into a `y_pred` array, then fits a fresh clone on all the data.
- **Method dispatch** then builds the calibration function.

`PredictProba`, `Predict` and `Classes` are functions over the stored state.

The wrapped sklearn classifier is a class `Estimator`:

- Its learning algorithm is an abstract `Learner` function.
- `fit` records the training data.
- `classes_` is the sorted set of distinct training labels.
- `predict_proba(.)[:, 1]` applies the learner to one row.

Edge cases where the code is easy to misread, each modelled as the code behaves:

- `predict` returns the second class only when the calibrated probability is strictly greater than 1/2. `np.argmax` breaks the tie at exactly 1/2 in favour of column 0.
- Derived basis column `c` (for `2 <= c <= K-1`) is `d_{c-1}(x) - d_{K-1}(x)` with 1-based `d_k`, as the loop `outmat[:, i+1] = H_i` computes. This is not `d_c - d_{K-1}`.
- `max_knots < 2` with the cap active keeps a Python negative slice of the interior. It does not give `max_knots` knots.
- With a single distinct score under an active cap, the knot vector is the doubled knot `[v, v]`.

## Model

| member | source | states |
|---|---|---|
| CalibrationUtils.Sort | ml_insights/calibration_utils.py:59 | np.sort: the result is sorted and is a permutation (same multiset) of the input |
| CalibrationUtils.Unique | ml_insights/calibration_utils.py:49 | np.unique: strictly increasing, and holds exactly the values of the input |
| CalibrationUtils.SortDistinct | ml_insights/calibration_utils.py:59 | sorting pairwise distinct values gives a strictly increasing sequence of the same length and the same values |
| CalibrationUtils.PrefixSlice | ml_insights/calibration_utils.py:57 | Python `s[:m]`: a prefix of `s` whose length is `min(m, len)` for `m >= 0` and `max(len + m, 0)` for negative `m` |
| CalibrationUtils.Shuffle | ml_insights/calibration_utils.py:55-56 | random.shuffle keeps the length and the multiset of the values (a permutation), whatever the draws |
| CalibrationUtils.ReducedKnots | ml_insights/calibration_utils.py:53-58 | the np.insert candidates start with the smallest and the biggest distinct score, the rest is a sub-multiset of the interior distinct scores, and for max_knots >= 2 there are 2 + min(max_knots - 2, interior size) of them |
| CalibrationUtils.SelectKnots | ml_insights/calibration_utils.py:49-59 | knot selection raises (None) exactly when the cap applies to an empty score vector |
| CalibrationUtils.ReducedKnotsDistinct | ml_insights/calibration_utils.py:53-58 | the reduced candidates (both extremes plus a slice of the shuffled interior) are pairwise distinct distinct-scores and include both extremes |
| CalibrationUtils.SelectKnotsUncapped | ml_insights/calibration_utils.py:49-52 | without the cap (knots other than 'sample', or at most max_knots distinct scores) the knots are exactly the sorted distinct scores |
| CalibrationUtils.SelectKnotsCapped | ml_insights/calibration_utils.py:52-59 | with the cap and max_knots >= 2: exactly max_knots knots, strictly increasing, all observed scores, first = minimum score, last = maximum score |
| CalibrationUtils.DoubledSingleKnot | ml_insights/calibration_utils.py:53-59 | one distinct value v under the cap gives the knot vector [v, v] |
| CalibrationUtils.SelectKnotsShape | ml_insights/calibration_utils.py:49-59 | every knot vector consists of observed scores, is strictly increasing or a doubled single knot, spans min..max, and has at least two knots iff there are two distinct scores or one under the cap |
| CalibrationUtils.NaturalCubicSplineBasisExpansion | ml_insights/calibration_utils.py:14-35 | the matrix is len(xpts) x len(knots); column 0 is all ones, column 1 is xpts; every entry equals BasisValue (func_H(c-1) in column c >= 2), i.e. the matching entry of BasisMatrix |
| CalibrationUtils.TruncatedCubic | ml_insights/calibration_utils.py:21-26 | func_d(k) is 0 at scores at or below both its own knot and the last knot |
| CalibrationUtils.TruncatedCubicBeforeLastKnot | ml_insights/calibration_utils.py:21-26 | between its own knot and the last knot func_d(k) is (x - knots[k-1])^3 divided by the gap to the last knot |
| CalibrationUtils.NaturalSplineTerm | ml_insights/calibration_utils.py:27-30 | func_H(k) = d_k - d_{K-1} is 0 at scores at or below knots[k-1], knots[K-2] and knots[K-1] |
| CalibrationUtils.BasisZeroAtOrBelowFirstKnot | ml_insights/calibration_utils.py:20-34 | a score at or below the first knot gets 0 in every derived column |
| CalibrationUtils.BasisLinearBeyondLastKnot | ml_insights/calibration_utils.py:20-34 | beyond the last knot each derived column is linear in the score, (b - a)(3x - a - b - l): the natural-spline boundary condition |
| CalibrationUtils.Clip | ml_insights/calibration_utils.py:89-91 | the two np.where steps put the value in [eps, 1 - eps] when eps <= 1/2, leave values already inside unchanged, and give 1 - eps when eps > 1/2 |
| CalibrationUtils.ClipAll | ml_insights/calibration_utils.py:89-91 | the vectorised np.where steps: same length, each entry clipped on its own |
| CalibrationUtils.ClipIdempotent | ml_insights/calibration_utils.py:89-91 | clipping twice equals clipping once |
| CalibrationUtils.ClipMonotone | ml_insights/calibration_utils.py:89-91 | clipping keeps the order of scores |
| CalibrationUtils.SquaredErrorSum | ml_insights/calibration_utils.py:119 | the sum of squared differences is non-negative, zero iff the two vectors are equal, and at most their length for values in [0, 1] |
| CalibrationUtils.MeanSquaredErrorTrunc | ml_insights/calibration_utils.py:116-119 | NaN (None) iff the input is empty; otherwise a non-negative average, zero iff every label equals its clipped prediction, and at most 1 for labels in [0, 1] and 0 <= eps <= 1/2 |
| CalibrationUtils.DefaultOptions | ml_insights/calibration_utils.py:38-39 | the keyword defaults: 'default' grid, knots='sample', force_prob=True, eps = 1e-15 (so 0 < eps < 1/2), max_knots=200 |
| CalibrationUtils.ResolveGrid | ml_insights/calibration_utils.py:64-74 | reg_param_vec='default' becomes a 43-point logarithmic grid (10^-4..10^10 for logistic, 10^-7..10^7 for ridge); an explicit list is passed through unchanged |
| CalibrationUtils.CalibrateScores | ml_insights/calibration_utils.py:80-92 | one output per new score, each the regressor applied to that score's basis row on the fit-time knots; ridge with force_prob and eps <= 1/2 lies in [eps, 1 - eps] |
| CalibrationUtils.CalibrateScoresPointwise | ml_insights/calibration_utils.py:80-84 | equal new scores calibrate to equal probabilities whatever else is in the batch: the knots are not recomputed from the new scores |
| CalibrationUtils.ProbCalibrationFunction | ml_insights/calibration_utils.py:38-93 | a function is returned only when there are two distinct scores or one under the cap (otherwise the IndexError, None); in that case exactly when the regression fit on the training-score basis with the resolved grid succeeds; its knots are exactly those SelectKnots picked (so SelectKnotsUncapped, SelectKnotsCapped and SelectKnotsShape apply to them), are usable by the basis, and its predictor is the regressor fitted on the basis over those knots |
| Calibration.Estimator.PositiveColumn | ml_insights/calibration.py:97 | predict_proba(X)[:, 1]: one score per row, each the learner applied to that row and the training data |
| Calibration.Estimator.Classes | ml_insights/calibration.py:169 | the wrapped classifier's classes_: its distinct training labels, strictly increasing |
| Calibration.SameTrainingSameScore | ml_insights/calibration.py:111-113 | in the model, predict_proba(.)[:, 1] of a row (PositiveScore) is a function of the learner and the data fitted on: two estimators with one learner fitted on the same data score every row alike (deterministic fitting, see Left out) |
| Calibration.Estimator.Fit | ml_insights/calibration.py:112 | fit records the rows and labels; the estimator is then fitted |
| Calibration.Estimator.Clone | ml_insights/calibration.py:111 | clone: a new, unfitted estimator with the same learner |
| Calibration.Gather | ml_insights/calibration.py:107-109 | np.array(s)[idx]: one element per index, in index order |
| Calibration.OutOfFoldScoreExcludesOwnFold | ml_insights/calibration.py:105-113 | a sample is never among its fold's training indices, and changing any data in its test fold except its own row (its own label included) leaves its score unchanged |
| Calibration.ScatterFold | ml_insights/calibration.py:113 | y_pred[test_idx] = ...: positions in test_idx get the fold estimator's scores, all other positions are unchanged; the ghost write counter, incremented at each assignment, grows at each position by its multiplicity in test_idx |
| Calibration.ScoresStep | ml_insights/calibration.py:105-113 | one fold iteration turns the scores of the first f folds into those of the first f + 1 |
| Calibration.WritesStep | ml_insights/calibration.py:105-113 | with a partition, fold f writes each position it owns once and no other position |
| Calibration.RunFold | ml_insights/calibration.py:106-113 | clone, fit on the fold's training rows and scatter: the scores and the counted writes advance by one fold |
| Calibration.PartitionedLabelsHaveTwoClasses | ml_insights/calibration.py:116-117 | folds whose training labels hold two classes each leave two classes in all of y, so the full refit has a positive-class column |
| Calibration.CrossValidatedScores | ml_insights/calibration.py:100-113 | y_pred starts as len(y) zeros; with folds that partition the samples every position is written exactly once and holds the score of a clone trained on its fold's training rows |
| Calibration.DispatchMethod | ml_insights/calibration.py:121-124 | 'logistic' selects the default method, 'ridge' selects ridge, any other string selects nothing |
| Calibration.ArgMax | ml_insights/calibration.py:166 | np.argmax: an index of a maximum, and the first such index |
| Calibration.ArgMaxOfProbabilityRow | ml_insights/calibration.py:166 | on a row [1 - p, p] argmax is 1 iff p > 1/2 and 0 iff p <= 1/2 |
| Calibration.SplineCalibratedClassifierCV.constructor | ml_insights/calibration.py:71-77 | __init__ stores the parameters; uncalibrated_classifier and calib_func start empty |
| Calibration.SplineCalibratedClassifierCV.WithDefaults | ml_insights/calibration.py:71-77 | SplineCalibratedClassifierCV(base_estimator): method='logistic', cv=5 and prob_calibration_function's own defaults |
| Calibration.SplineCalibratedClassifierCV.TrainingScores | ml_insights/calibration.py:95-113 | the scores fit calibrates on: the base estimator's positive column in prefit mode, the out-of-fold scores otherwise |
| Calibration.SplineCalibratedClassifierCV.FitUncalibrated | ml_insights/calibration.py:95-117 | prefit: uncalibrated_classifier is the base estimator itself and no fold loop runs; k-fold: the fold-loop scores, and a fresh clone fitted on all of X, y |
| Calibration.SplineCalibratedClassifierCV.FitCalibration | ml_insights/calibration.py:119-124 | 'logistic'/'ridge' build the calibration function with that method (ok = false, calib_func unchanged, when the builder raises: too few knots or a failed regression fit); any other method leaves calib_func unchanged |
| Calibration.SplineCalibratedClassifierCV.Fit | ml_insights/calibration.py:79-127 | the whole new state: parameters unchanged, the uncalibrated classifier per mode, and calib_func built from exactly TrainingScores with the dispatched method; a successful fit with 'logistic' or 'ridge' leaves the object ready for predict_proba, predict and classes_ |
| Calibration.SplineCalibratedClassifierCV.PredictProba | ml_insights/calibration.py:146-148 | two columns per row summing to 1; column 1 is the calibration function applied to the uncalibrated positive-class score; for ridge with force_prob both lie in [eps, 1 - eps] |
| Calibration.SplineCalibratedClassifierCV.Predict | ml_insights/calibration.py:166 | classes_[1] when the calibrated probability exceeds 1/2, classes_[0] otherwise |
| Calibration.SplineCalibratedClassifierCV.PredictIsThreshold | ml_insights/calibration.py:166 | the prediction is classes_[1] iff p > 1/2 and classes_[0] iff p <= 1/2 |
| Calibration.SplineCalibratedClassifierCV.Classes | ml_insights/calibration.py:168-169 | classes_ is the uncalibrated classifier's strictly increasing set of training labels |

## Left out

- The sklearn regressors (`LogisticRegressionCV`, `RidgeCV`, their inner 5-fold search, `log_loss` and `make_scorer`): library calls. `Regression` is an abstract parameter that maps the method, grid, basis matrix and labels to a row predictor, or to None where the fit raises.
- `CalibrationUtils.ProbCalibrationFunction`: when the regressors raise is not characterised (a ValueError for a single class in `truthvec`, or fewer samples than the 5 inner folds, calibration_utils.py:68-69, 76-77). The model lets `Regression` fail (None) on any input and carries the failure to None and to `ok = false` in `Fit`; it does not promise failure on those particular inputs.
- The `10**np.linspace` grids: floating-point exponentiation. A default grid is kept symbolically as `LogSpace(low, high, 43)`.
- `StratifiedKFold` and the sklearn version check: fold generation in a library. The folds are a parameter, required to partition the samples with each train set the complement of its test set. The splitter's own errors (`n_splits < 2`, too few members of a class) and its stratification are not modelled.
- The random generator: `random.seed(random_state)` and Python's Mersenne Twister. The raw draws are a function of (length, step), reduced modulo `i + 1` at step `i`, so any swap sequence of the Fisher–Yates loop can be expressed. Uniformity is not modelled.
- All `print` progress output: I/O.
- `train_and_calibrate_cv`: the function cannot run as written (`cross_validation` and `clone` are not imported) and scores folds with the untrained model.
- The commented-out extrapolation clipping and `check_is_fitted` calls. Calling `predict_proba`, `predict` or `classes_` before `fit` fails in the source with an attribute error; the model expresses this as a precondition (`ReadyToPredict`).
- These errors raised inside sklearn or numpy are preconditions rather than error results (the regressor's errors are results, see above):
  - `predict_proba(.)[:, 1]` on an estimator trained on a single class (an IndexError);
  - `X` and `y` of different lengths;
  - a prefit base estimator that was never fitted.
- `Calibration.SplineCalibratedClassifierCV.FitCalibration`: when `prob_calibration_function` raises (fewer than two knots, or a failed regression fit), the model returns `ok = false` and keeps the state reached so far, rather than propagating an exception.
- `CalibrationUtils.NaturalCubicSplineBasisExpansion`: requires at least two knots, and a last knot distinct from the others when derived columns exist. With fewer knots numpy raises an IndexError. With a repeated last knot it divides by zero and yields inf/NaN, which `real` cannot express. Every knot vector the fitter builds meets this requirement (`ProbCalibrationFunction`).
- `prob_calibration_function` called directly with a method other than 'logistic' or 'ridge' gives a function that fails with NameError on first use. `CalibrationMethod` has only the two methods the classifier can pass.
- A `method` entry inside `calib_kwargs`: it would clash with, or override, the method fit passes. `CalibOptions` has no method field.
- `base_estimator=None` (the default): fit would fail on it, so the model always takes an estimator. The defaults `method='logistic'` and `cv=5` (the constants `DefaultMethod` and `DefaultCv`) are used by the constructor `WithDefaults`.
- `mean_squared_error_trunc`'s default `eps=1e-15`: eps is an explicit argument.
- `Calibration.SameTrainingSameScore`: fitting is modelled as deterministic (`Learner` is a function of the training rows and labels). sklearn gives no such guarantee: `clone` copies `random_state=None`, so an estimator drawing from an unseeded generator (a random forest, SGD) refitted on the same data may score rows differently. Such estimators are not captured, and `TrainingScores`/`OutOfFoldScores` being functions of `(X, y, folds)` rests on the same assumption; the no-leakage property (`OutOfFoldScoreExcludesOwnFold`) does not.
- Calibrate's row-wise view of predict_proba: a batch is scored row by row (`Learner` sees one row), as the sklearn linear models do.
- Floating point: all scores, probabilities and labels are `real`, with no rounding and no NaN.
