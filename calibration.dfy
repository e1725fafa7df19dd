/** SplineCalibratedClassifierCV: a base classifier whose positive-class scores are recalibrated by
    a natural cubic spline fitted on cross-validated (or, in prefit mode, in-sample) scores. */
module Calibration {
  import opened CalibrationUtils

  type Row = seq<real>

  /** The learning algorithm of the wrapped sklearn classifier: trained on rows and labels, it
      gives a new row its positive-class probability, predict_proba(.)[:, 1]. Each row is scored
      on its own, whatever else is in the batch, and fitting is deterministic: an estimator that
      draws from an unseeded generator is not captured. */
  type Learner = (seq<Row>, seq<real>, Row) -> real

  /** A scikit-learn classifier: its hyper-parameters (the learner) are fixed at construction,
      fit records the training data it was last fitted on. */
  class Estimator {
    const learner: Learner
    var fitted: bool
    var trainX: seq<Row>
    var trainY: seq<real>

    constructor (learner: Learner)
      ensures this.learner == learner && !fitted && trainX == [] && trainY == []
    {
      this.learner := learner;
      fitted := false;
      trainX := [];
      trainY := [];
    }

    /** sklearn.base.clone: a new, unfitted estimator with the same parameters. */
    constructor Clone(original: Estimator)
      ensures learner == original.learner && !fitted && trainX == [] && trainY == []
    {
      learner := original.learner;
      fitted := false;
      trainX := [];
      trainY := [];
    }

    method Fit(X: seq<Row>, y: seq<real>)
      requires |X| == |y|
      modifies this
      ensures fitted && trainX == X && trainY == y
    {
      fitted := true;
      trainX := X;
      trainY := y;
    }

    /** classes_: the sorted distinct training labels. */
    function Classes(): (r: seq<real>)
      reads this
      requires fitted
      ensures StrictlyIncreasing(r)
      ensures forall v :: v in r <==> v in trainY
    {
      Unique(trainY)
    }

    /** predict_proba(.)[:, 1] of one row; the column exists only with at least two classes. */
    function PositiveScore(x: Row): real
      reads this
      requires fitted && |Classes()| >= 2
    {
      learner(trainX, trainY, x)
    }

    /** predict_proba(X)[:, 1]. */
    function PositiveColumn(X: seq<Row>): (r: seq<real>)
      reads this
      requires fitted && |Classes()| >= 2
      ensures |r| == |X|
      ensures forall i :: 0 <= i < |X| ==> r[i] == PositiveScore(X[i])
    {
      var l, tx, ty := learner, trainX, trainY;
      seq(|X|, i requires 0 <= i < |X| => l(tx, ty, X[i]))
    }
  }

  /** In this model the score of a row is fixed by the estimator's learner and the data it was
      last fitted on: two estimators with one learner fitted on the same rows and labels score
      every row alike. This is the modelling assumption that fitting is deterministic. */
  lemma SameTrainingSameScore(a: Estimator, b: Estimator, x: Row)
    requires a.fitted && |a.Classes()| >= 2
    requires b.fitted && a.learner == b.learner && a.trainX == b.trainX && a.trainY == b.trainY
    ensures |b.Classes()| >= 2 && a.PositiveScore(x) == b.PositiveScore(x)
  {
  }

  // ---------------------------------------------------------------------------
  // Folds
  // ---------------------------------------------------------------------------

  /** One (train_idx, test_idx) pair produced by the splitter. */
  datatype Fold = Fold(train: seq<nat>, test: seq<nat>)

  /** Some fold's test set holds p. */
  predicate Covered(folds: seq<Fold>, p: nat) {
    exists f :: 0 <= f < |folds| && p in folds[f].test
  }

  /** The folds StratifiedKFold yields on n samples: every test set lists distinct indices below
      n, every train set is the complement of its test set, and the test sets partition 0..n-1. */
  predicate IsPartition(folds: seq<Fold>, n: nat) {
    (forall f :: 0 <= f < |folds| ==>
       NoDuplicates(folds[f].test) &&
       (forall k :: 0 <= k < |folds[f].test| ==> folds[f].test[k] < n) &&
       (forall k :: 0 <= k < |folds[f].train| ==> folds[f].train[k] < n) &&
       (forall p :: 0 <= p < n ==> (p in folds[f].train <==> p !in folds[f].test))) &&
    (forall p :: 0 <= p < n ==> Covered(folds, p)) &&
    (forall f, g, p :: 0 <= f < g < |folds| && p in folds[f].test ==> p !in folds[g].test)
  }

  /** The fold whose test set holds p: the first one, and with a partition the only one. */
  function FoldOf(folds: seq<Fold>, p: nat): (f: nat)
    requires Covered(folds, p)
    ensures f < |folds| && p in folds[f].test
    ensures forall g :: 0 <= g < f ==> p !in folds[g].test
  {
    if p in folds[0].test then 0
    else
      var g :| 0 <= g < |folds| && p in folds[g].test;
      assert 0 <= g - 1 < |folds[1..]| && p in folds[1..][g - 1].test;
      1 + FoldOf(folds[1..], p)
  }

  lemma FoldOfIsUnique(folds: seq<Fold>, n: nat, f: nat, p: nat)
    requires IsPartition(folds, n) && p < n && f < |folds|
    ensures p in folds[f].test <==> FoldOf(folds, p) == f
  {
  }

  /** np.array(s)[idx]: the elements of s at the given indices, in order. */
  function Gather<T>(s: seq<T>, idx: seq<nat>): (r: seq<T>)
    requires forall k :: 0 <= k < |idx| ==> idx[k] < |s|
    ensures |r| == |idx|
    ensures forall k :: 0 <= k < |idx| ==> r[k] == s[idx[k]]
  {
    seq(|idx|, k requires 0 <= k < |idx| => s[idx[k]])
  }

  /** Every fold's training labels hold at least two classes, so the clone fitted on them has a
      positive-class column. */
  predicate FoldsTrainable(y: seq<real>, folds: seq<Fold>)
    requires IsPartition(folds, |y|)
  {
    forall f :: 0 <= f < |folds| ==> |Unique(Gather(y, folds[f].train))| >= 2
  }

  /** Folds whose training labels each hold two classes leave at least two classes in all of y,
      so the classifier refitted on all the data has a positive-class column too. */
  lemma PartitionedLabelsHaveTwoClasses(y: seq<real>, folds: seq<Fold>)
    requires IsPartition(folds, |y|) && FoldsTrainable(y, folds) && |y| > 0
    ensures |Unique(y)| >= 2
  {
    assert Covered(folds, 0);
    var f :| 0 <= f < |folds| && 0 in folds[f].test;
    var labels := Gather(y, folds[f].train);
    assert |Unique(labels)| >= 2;
    GatheredValues(y, folds[f].train);
    TwoClassesInAll(y, labels);
  }

  /** Every gathered element is an element of the source. */
  lemma GatheredValues<T>(s: seq<T>, idx: seq<nat>)
    requires forall k :: 0 <= k < |idx| ==> idx[k] < |s|
    ensures forall v :: v in Gather(s, idx) ==> v in s
  {
    forall v | v in Gather(s, idx)
      ensures v in s
    {
      var k :| 0 <= k < |idx| && Gather(s, idx)[k] == v;
      assert s[idx[k]] == v;
    }
  }

  /** Two classes among some of the labels are two classes among all of them. */
  lemma TwoClassesInAll(y: seq<real>, labels: seq<real>)
    requires |Unique(labels)| >= 2
    requires forall v :: v in labels ==> v in y
    ensures |Unique(y)| >= 2
  {
    var u := Unique(labels);
    assert u[0] < u[1];
    assert u[0] in labels && u[1] in labels;
    var all := Unique(y);
    assert u[0] in all && u[1] in all;
  }

  /** The score fit stores for sample p: the positive-class probability given to row p by a clone
      trained on p's fold's training rows. */
  function OutOfFoldScore(learner: Learner, X: seq<Row>, y: seq<real>, folds: seq<Fold>, p: nat): real
    requires |X| == |y| && IsPartition(folds, |y|) && p < |y|
  {
    var fold := folds[FoldOf(folds, p)];
    learner(Gather(X, fold.train), Gather(y, fold.train), X[p])
  }

  function OutOfFoldScores(learner: Learner, X: seq<Row>, y: seq<real>, folds: seq<Fold>): (r: seq<real>)
    requires |X| == |y| && IsPartition(folds, |y|)
    ensures |r| == |y|
    ensures forall p :: 0 <= p < |y| ==> r[p] == OutOfFoldScore(learner, X, y, folds, p)
  {
    seq(|y|, p requires 0 <= p < |y| => OutOfFoldScore(learner, X, y, folds, p))
  }

  /** No score is computed from its own sample: p is not among the training indices of its fold,
      and changing the data anywhere in p's test fold, except row p itself, leaves p's score as it
      was (in particular p's own label is never used). */
  lemma OutOfFoldScoreExcludesOwnFold(learner: Learner, X: seq<Row>, y: seq<real>, X': seq<Row>, y': seq<real>,
                                      folds: seq<Fold>, p: nat)
    requires |X| == |y| && IsPartition(folds, |y|) && p < |y|
    requires |X'| == |X| && |y'| == |y| && X'[p] == X[p]
    requires forall q :: 0 <= q < |y| && q !in folds[FoldOf(folds, p)].test ==> X'[q] == X[q] && y'[q] == y[q]
    ensures p !in folds[FoldOf(folds, p)].train
    ensures OutOfFoldScore(learner, X', y', folds, p) == OutOfFoldScore(learner, X, y, folds, p)
  {
    var train := folds[FoldOf(folds, p)].train;
    forall k | 0 <= k < |train|
      ensures Gather(X', train)[k] == Gather(X, train)[k] && Gather(y', train)[k] == Gather(y, train)[k]
    {
      assert train[k] in train;
    }
    assert Gather(X', train) == Gather(X, train);
    assert Gather(y', train) == Gather(y, train);
  }

  // ---------------------------------------------------------------------------
  // The fold loop of fit
  // ---------------------------------------------------------------------------

  /** y_pred[test_idx] = this_estimator.predict_proba(X_test)[:, 1]. The ghost counts writes
      (one entry per position of y_pred) are incremented at each assignment, so a position gains
      as many writes as it occurs in test_idx. */
  method ScatterFold(yPred: array<real>, test: seq<nat>, estimator: Estimator, X: seq<Row>, ghost writes: seq<nat>)
    returns (ghost counted: seq<nat>)
    requires forall k :: 0 <= k < |test| ==> test[k] < yPred.Length && test[k] < |X|
    requires estimator.fitted && |estimator.Classes()| >= 2
    requires |writes| == yPred.Length
    modifies yPred
    ensures forall p :: 0 <= p < yPred.Length ==>
              yPred[p] == (if p in test then estimator.PositiveScore(X[p]) else old(yPred[p]))
    ensures |counted| == |writes| && forall p :: 0 <= p < |writes| ==> counted[p] == writes[p] + multiset(test)[p]
  {
    var column := estimator.PositiveColumn(Gather(X, test));
    counted := writes;
    for k := 0 to |test|
      invariant forall p :: 0 <= p < yPred.Length ==>
                  yPred[p] == (if p in test[..k] then estimator.PositiveScore(X[p]) else old(yPred[p]))
      invariant |counted| == |writes|
      invariant forall p :: 0 <= p < |writes| ==> counted[p] == writes[p] + multiset(test[..k])[p]
    {
      yPred[test[k]] := column[k];
      counted := counted[test[k] := counted[test[k]] + 1];
      assert test[..k + 1] == test[..k] + [test[k]];
    }
    assert test[..|test|] == test;
  }

  /** y_pred after the first f folds: the out-of-fold score where the fold that owns the position
      has run, the initial zero elsewhere. */
  function ScoresAfter(learner: Learner, X: seq<Row>, y: seq<real>, folds: seq<Fold>, f: nat): (r: seq<real>)
    requires |X| == |y| && IsPartition(folds, |y|)
    ensures |r| == |y|
  {
    seq(|y|, p requires 0 <= p < |y| =>
      if FoldOf(folds, p) < f then OutOfFoldScore(learner, X, y, folds, p) else 0.0)
  }

  /** How many times each position of y_pred has been written after the first f folds. */
  ghost function WritesAfter(folds: seq<Fold>, n: nat, f: nat): (r: seq<nat>)
    requires IsPartition(folds, n)
    ensures |r| == n
  {
    seq(n, p requires 0 <= p < n => if FoldOf(folds, p) < f then 1 else 0)
  }

  /** Running fold f writes exactly the positions fold f owns, with their out-of-fold scores. */
  lemma ScoresStep(learner: Learner, X: seq<Row>, y: seq<real>, folds: seq<Fold>, f: nat,
                   before: seq<real>, after: seq<real>)
    requires |X| == |y| && IsPartition(folds, |y|) && f < |folds|
    requires before == ScoresAfter(learner, X, y, folds, f) && |after| == |y|
    requires forall p :: 0 <= p < |y| ==>
               after[p] == (if p in folds[f].test
                            then learner(Gather(X, folds[f].train), Gather(y, folds[f].train), X[p])
                            else before[p])
    ensures after == ScoresAfter(learner, X, y, folds, f + 1)
  {
    forall p | 0 <= p < |y|
      ensures after[p] == ScoresAfter(learner, X, y, folds, f + 1)[p]
    {
      FoldOfIsUnique(folds, |y|, f, p);
    }
  }

  /** Fold f adds one write to each position it owns and none elsewhere. */
  lemma WritesStep(folds: seq<Fold>, n: nat, f: nat, before: seq<nat>, after: seq<nat>)
    requires IsPartition(folds, n) && f < |folds|
    requires before == WritesAfter(folds, n, f) && |after| == n
    requires forall p :: 0 <= p < n ==> after[p] == before[p] + multiset(folds[f].test)[p]
    ensures after == WritesAfter(folds, n, f + 1)
  {
    forall p | 0 <= p < n
      ensures after[p] == WritesAfter(folds, n, f + 1)[p]
    {
      FoldOfIsUnique(folds, n, f, p);
      MultiplicityAtMostOne(folds[f].test, p);
    }
  }

  /** One iteration of the fold loop: clone the base estimator, fit it on fold f's training rows
      and write its scores into fold f's test positions. */
  method RunFold(yPred: array<real>, base: Estimator, X: seq<Row>, y: seq<real>, folds: seq<Fold>, f: nat,
                 ghost writes: seq<nat>)
    returns (ghost counted: seq<nat>)
    requires |X| == |y| && IsPartition(folds, |y|) && FoldsTrainable(y, folds) && f < |folds|
    requires yPred.Length == |y| && yPred[..] == ScoresAfter(base.learner, X, y, folds, f)
    requires writes == WritesAfter(folds, |y|, f)
    modifies yPred
    ensures yPred[..] == ScoresAfter(base.learner, X, y, folds, f + 1)
    ensures counted == WritesAfter(folds, |y|, f + 1)
  {
    var fold := folds[f];
    var estimator := new Estimator.Clone(base);
    estimator.Fit(Gather(X, fold.train), Gather(y, fold.train));
    ghost var before := yPred[..];
    counted := ScatterFold(yPred, fold.test, estimator, X, writes);
    ScoresStep(base.learner, X, y, folds, f, before, yPred[..]);
    WritesStep(folds, |y|, f, writes, counted);
  }

  /** The k-fold branch of fit before the full refit: y_pred starts as zeros of length len(y), and
      each fold writes its scores into its test positions. Every position is written exactly once
      (the ghost writes counts the assignments made by ScatterFold) and holds its out-of-fold score; the base estimator is
      not touched. */
  method CrossValidatedScores(base: Estimator, X: seq<Row>, y: seq<real>, folds: seq<Fold>)
    returns (scores: seq<real>, ghost writes: seq<nat>)
    requires |X| == |y| && IsPartition(folds, |y|) && FoldsTrainable(y, folds)
    ensures |writes| == |y| && forall p :: 0 <= p < |y| ==> writes[p] == 1
    ensures scores == OutOfFoldScores(base.learner, X, y, folds)
  {
    var n := |y|;
    var yPred := new real[n](_ => 0.0);
    writes := seq(n, _ => 0);
    assert yPred[..] == ScoresAfter(base.learner, X, y, folds, 0);
    assert writes == WritesAfter(folds, n, 0);
    for f := 0 to |folds|
      invariant yPred[..] == ScoresAfter(base.learner, X, y, folds, f)
      invariant writes == WritesAfter(folds, n, f)
    {
      writes := RunFold(yPred, base, X, y, folds, f, writes);
    }
    scores := yPred[..];
    assert scores == OutOfFoldScores(base.learner, X, y, folds);
  }

  // ---------------------------------------------------------------------------
  // The classifier
  // ---------------------------------------------------------------------------

  /** The cv parameter: the string "prefit", or the number of stratified folds. */
  datatype CvMode = Prefit | KFold(nSplits: int)

  /** The defaults of the method and cv parameters: method='logistic', cv=5. */
  const DefaultMethod: string := "logistic"
  const DefaultCv: CvMode := KFold(5)

  /** fit's two method tests: 'logistic' calls prob_calibration_function with its default method,
      'ridge' passes method='ridge', and any other string matches neither. */
  function DispatchMethod(methodName: string): (r: Option<CalibrationMethod>)
    ensures r == Some(Logistic) <==> methodName == "logistic"
    ensures r == Some(Ridge) <==> methodName == "ridge"
    ensures r.None? <==> methodName != "logistic" && methodName != "ridge"
  {
    if methodName == "logistic" then Some(Logistic)
    else if methodName == "ridge" then Some(Ridge)
    else None
  }

  /** np.argmax over a row: the first index holding the largest value. */
  function ArgMax(row: seq<real>): (r: nat)
    requires |row| > 0
    ensures r < |row|
    ensures forall j :: 0 <= j < |row| ==> row[j] <= row[r]
    ensures forall j :: 0 <= j < r ==> row[j] < row[r]
  {
    if |row| == 1 then 0
    else
      var rest := ArgMax(row[1..]);
      if row[0] >= row[1..][rest] then 0 else 1 + rest
  }

  /** On a predict_proba row [1 - p, p] argmax picks column 1 exactly when p > 1/2. */
  lemma ArgMaxOfProbabilityRow(p: real)
    ensures ArgMax([1.0 - p, p]) == 1 <==> p > 0.5
    ensures ArgMax([1.0 - p, p]) == 0 <==> p <= 0.5
  {
    var r := ArgMax([1.0 - p, p]);
    assert [1.0 - p, p][0] == 1.0 - p && [1.0 - p, p][1] == p;
  }

  class SplineCalibratedClassifierCV {
    var baseEstimator: Estimator
    var uncalibratedClassifier: Estimator?
    var calibFunc: Option<CalibrationFunction>
    var methodName: string
    var cv: CvMode
    var calibKwargs: CalibOptions

    /** Every calibration function the object holds was built by prob_calibration_function, so
        its knots are usable by calibrate_scores. */
    predicate Valid()
      reads this
    {
      calibFunc.Some? ==> ValidKnots(calibFunc.value.knots)
    }

    /** __init__: stores the parameters; nothing is fitted yet. */
    constructor (baseEstimator: Estimator, methodName: string, cv: CvMode, calibKwargs: CalibOptions)
      ensures Valid()
      ensures this.baseEstimator == baseEstimator && this.methodName == methodName
      ensures this.cv == cv && this.calibKwargs == calibKwargs
      ensures uncalibratedClassifier == null && calibFunc.None?
    {
      this.baseEstimator := baseEstimator;
      uncalibratedClassifier := null;
      calibFunc := None;
      this.methodName := methodName;
      this.cv := cv;
      this.calibKwargs := calibKwargs;
    }

    /** SplineCalibratedClassifierCV(base_estimator): method='logistic', cv=5, and no calib_kwargs,
        so prob_calibration_function runs with its own defaults (random_state=942 fixing draws). */
    constructor WithDefaults(baseEstimator: Estimator, draws: Draws)
      ensures Valid()
      ensures this.baseEstimator == baseEstimator && methodName == "logistic" && cv == KFold(5)
      ensures calibKwargs == DefaultOptions(draws) && calibKwargs.eps == 1e-15 && calibKwargs.maxKnots == 200
      ensures uncalibratedClassifier == null && calibFunc.None?
    {
      this.baseEstimator := baseEstimator;
      uncalibratedClassifier := null;
      calibFunc := None;
      methodName := DefaultMethod;
      cv := DefaultCv;
      calibKwargs := DefaultOptions(draws);
    }

    /** What fit needs of its inputs: X and y of one length; in prefit mode a base estimator
        fitted on at least two classes; otherwise cv folds that partition the samples, each with
        at least two classes among its training labels. */
    predicate FitRequirements(X: seq<Row>, y: seq<real>, folds: seq<Fold>)
      reads this, baseEstimator
    {
      |X| == |y| &&
      match cv
      case Prefit => baseEstimator.fitted && |baseEstimator.Classes()| >= 2
      case KFold(nSplits) => |folds| == nSplits && IsPartition(folds, |y|) && FoldsTrainable(y, folds)
    }

    /** The score vector y_pred that fit calibrates on. */
    function TrainingScores(X: seq<Row>, y: seq<real>, folds: seq<Fold>): (r: seq<real>)
      reads this, baseEstimator
      requires FitRequirements(X, y, folds)
      ensures |r| == |y|
      ensures cv.Prefit? ==> r == baseEstimator.PositiveColumn(X)
      ensures cv.KFold? ==> r == OutOfFoldScores(baseEstimator.learner, X, y, folds)
    {
      if cv.Prefit? then baseEstimator.PositiveColumn(X)
      else OutOfFoldScores(baseEstimator.learner, X, y, folds)
    }

    /** The first half of fit. In prefit mode the base estimator itself becomes the uncalibrated
        classifier and its scores on X are returned, with no fold loop; otherwise the scores come
        from the fold loop and the uncalibrated classifier is a fresh clone fitted on all of X, y. */
    method FitUncalibrated(X: seq<Row>, y: seq<real>, folds: seq<Fold>) returns (yPred: seq<real>)
      requires FitRequirements(X, y, folds)
      modifies this
      ensures baseEstimator == old(baseEstimator) && methodName == old(methodName)
      ensures cv == old(cv) && calibKwargs == old(calibKwargs) && calibFunc == old(calibFunc)
      ensures yPred == old(TrainingScores(X, y, folds))
      ensures cv.Prefit? ==> uncalibratedClassifier == baseEstimator
      ensures cv.KFold? ==>
                fresh(uncalibratedClassifier) && uncalibratedClassifier.learner == baseEstimator.learner &&
                uncalibratedClassifier.fitted && uncalibratedClassifier.trainX == X && uncalibratedClassifier.trainY == y
    {
      if cv.Prefit? {
        uncalibratedClassifier := baseEstimator;
        yPred := baseEstimator.PositiveColumn(X);
      } else {
        ghost var writes;
        yPred, writes := CrossValidatedScores(baseEstimator, X, y, folds);
        var full := new Estimator.Clone(baseEstimator);
        full.Fit(X, y);
        uncalibratedClassifier := full;
      }
    }

    /** The second half of fit: 'logistic' or 'ridge' builds the calibration function; ok is
        false where prob_calibration_function raises (fewer than two knots, or a regression fit
        that fails), which leaves
        calib_func as it was. Any other method name leaves calib_func as it was too. */
    method FitCalibration(y: seq<real>, yPred: seq<real>, regress: Regression) returns (ok: bool)
      requires Valid()
      modifies this
      ensures Valid()
      ensures baseEstimator == old(baseEstimator) && methodName == old(methodName) && cv == old(cv)
      ensures calibKwargs == old(calibKwargs) && uncalibratedClassifier == old(uncalibratedClassifier)
      ensures DispatchMethod(methodName).None? ==> ok && calibFunc == old(calibFunc)
      ensures DispatchMethod(methodName).Some? ==>
                var built := ProbCalibrationFunction(y, yPred, DispatchMethod(methodName).value, calibKwargs, regress);
                ok == built.Some? && calibFunc == (if built.Some? then built else old(calibFunc))
    {
      ok := true;
      match DispatchMethod(methodName)
      case None =>
      case Some(calibMethod) =>
        var built := ProbCalibrationFunction(y, yPred, calibMethod, calibKwargs, regress);
        if built.Some? {
          calibFunc := built;
        } else {
          ok := false;
        }
    }

    /** fit: the uncalibrated classifier and its scores, then the calibration function built on
        those scores (see FitUncalibrated and FitCalibration). */
    method Fit(X: seq<Row>, y: seq<real>, folds: seq<Fold>, regress: Regression) returns (ok: bool)
      requires Valid() && FitRequirements(X, y, folds)
      modifies this
      ensures Valid()
      ensures baseEstimator == old(baseEstimator) && methodName == old(methodName)
      ensures cv == old(cv) && calibKwargs == old(calibKwargs)
      ensures cv.Prefit? ==> uncalibratedClassifier == baseEstimator
      ensures cv.KFold? ==>
                fresh(uncalibratedClassifier) && uncalibratedClassifier.learner == baseEstimator.learner &&
                uncalibratedClassifier.fitted && uncalibratedClassifier.trainX == X && uncalibratedClassifier.trainY == y
      ensures DispatchMethod(methodName).None? ==> ok && calibFunc == old(calibFunc)
      ensures DispatchMethod(methodName).Some? ==>
                var built := ProbCalibrationFunction(y, old(TrainingScores(X, y, folds)),
                                                     DispatchMethod(methodName).value, calibKwargs, regress);
                ok == built.Some? && calibFunc == (if built.Some? then built else old(calibFunc))
      ensures ok && DispatchMethod(methodName).Some? ==> ReadyToPredict()
    {
      var yPred := FitUncalibrated(X, y, folds);
      ok := FitCalibration(y, yPred, regress);
      if ok && DispatchMethod(methodName).Some? && cv.KFold? {
        ghost var built := ProbCalibrationFunction(y, yPred, DispatchMethod(methodName).value, calibKwargs, regress);
        assert built.Some? && |Unique(yPred)| >= 1;
        assert Unique(yPred)[0] in yPred;
        PartitionedLabelsHaveTwoClasses(y, folds);
      }
    }

    /** predict_proba needs a fitted classifier with two classes and a calibration function. */
    predicate ReadyToPredict()
      reads this, uncalibratedClassifier
    {
      Valid() && uncalibratedClassifier != null && uncalibratedClassifier.fitted &&
      |uncalibratedClassifier.Classes()| >= 2 && calibFunc.Some?
    }

    /** predict_proba: column 1 is the calibration function applied to the uncalibrated
        classifier's positive-class scores, column 0 is 1 minus column 1. */
    function PredictProba(X: seq<Row>): (r: seq<seq<real>>)
      reads this, uncalibratedClassifier
      requires ReadyToPredict()
      ensures |r| == |X|
      ensures forall i :: 0 <= i < |X| ==>
                |r[i]| == 2 && r[i][0] + r[i][1] == 1.0 &&
                r[i][1] == CalibratedScore(calibFunc.value, uncalibratedClassifier.PositiveScore(X[i]))
      ensures calibFunc.value.calibMethod.Ridge? && calibFunc.value.forceProb && calibFunc.value.eps <= 0.5 ==>
                forall i :: 0 <= i < |X| ==> forall c :: 0 <= c < 2 ==>
                  calibFunc.value.eps <= r[i][c] <= 1.0 - calibFunc.value.eps
    {
      var col1 := CalibrateScores(calibFunc.value, uncalibratedClassifier.PositiveColumn(X));
      seq(|X|, i requires 0 <= i < |X| => [1.0 - col1[i], col1[i]])
    }

    /** classes_: the uncalibrated classifier's classes. */
    function Classes(): (r: seq<real>)
      reads this, uncalibratedClassifier
      requires uncalibratedClassifier != null && uncalibratedClassifier.fitted
      ensures StrictlyIncreasing(r)
      ensures forall v :: v in r <==> v in uncalibratedClassifier.trainY
    {
      uncalibratedClassifier.Classes()
    }

    /** predict: classes_[argmax] of each predict_proba row, so the second class exactly when the
        calibrated probability exceeds 1/2 (a tie at 1/2 goes to the first class). */
    function Predict(X: seq<Row>): (r: seq<real>)
      reads this, uncalibratedClassifier
      requires ReadyToPredict()
      ensures |r| == |X|
      ensures forall i :: 0 <= i < |X| ==>
                r[i] == (if PredictProba(X)[i][1] > 0.5 then Classes()[1] else Classes()[0])
    {
      var proba := PredictProba(X);
      var classes := Classes();
      seq(|X|, i requires 0 <= i < |X| => classes[ArgMax(proba[i])])
    }

    /** The predicted label is always one of the two first classes and is the second one exactly
        when the calibrated probability exceeds 1/2. */
    lemma PredictIsThreshold(X: seq<Row>, i: nat)
      requires ReadyToPredict() && i < |X|
      ensures Predict(X)[i] == Classes()[1] <==> PredictProba(X)[i][1] > 0.5
      ensures Predict(X)[i] == Classes()[0] <==> PredictProba(X)[i][1] <= 0.5
    {
      var classes := Classes();
      assert classes[0] < classes[1];
    }
  }
}
