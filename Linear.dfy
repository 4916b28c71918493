/** The linear regressor trained by per-sample gradient descent (ex1/src/linear.rs). */
module Linear {
  import opened U

  // ---------------------------------------------------------------------------
  // Min-max scaling
  // ---------------------------------------------------------------------------

  /** The width `max - min` used to normalise a variable; a zero width becomes 1.0. */
  function Range(mm: MinMax): (r: real)
    ensures r != 0.0
    ensures mm.max != mm.min ==> r == mm.max - mm.min
    ensures mm.max == mm.min ==> r == 1.0
    ensures mm.min <= mm.max ==> r > 0.0
  {
    var range := mm.max - mm.min;
    if range == 0.0 then 1.0 else range
  }

  /** Normalising one value against a recorded range. */
  function Scale(v: real, mm: MinMax): real {
    (v - mm.min) / Range(mm)
  }

  /** Denormalising one prediction: `z * (max - min) + min`, with the raw width, not `Range`. */
  function Unscale(z: real, mm: MinMax): real {
    z * (mm.max - mm.min) + mm.min
  }

  /** With a proper range, values inside it land in [0, 1], the minimum on 0 and the maximum on 1. */
  lemma ScaleIntoUnit(v: real, mm: MinMax)
    requires mm.min < mm.max && mm.min <= v <= mm.max
    ensures 0.0 <= Scale(v, mm) <= 1.0
    ensures Scale(mm.min, mm) == 0.0 && Scale(mm.max, mm) == 1.0
  {
    var w := mm.max - mm.min;
    assert Range(mm) == w;
    DivideBounds(v - mm.min, w, 0.0, 1.0);
  }

  /** Denormalising a normalised value gives it back, except on a zero-width range, where it gives the minimum. */
  lemma UnscaleScale(v: real, mm: MinMax)
    ensures Unscale(Scale(v, mm), mm) == if mm.max != mm.min then v else mm.min
  {
    if mm.max != mm.min {
      var w := mm.max - mm.min;
      assert Range(mm) == w;
      assert (v - mm.min) / w * w == v - mm.min;
    }
  }

  // ---------------------------------------------------------------------------
  // Recorded ranges and normalised data
  // ---------------------------------------------------------------------------

  /** The ranges `fitnorm` records: the target's first, then each feature's in column order. */
  function NormOf(x: Matrix, y: Matrix): (norm: seq<MinMax>)
    requires |y| > 0 && |y[0]| > 0
    requires forall j :: 0 <= j < |x| ==> |x[j]| > 0
    ensures |norm| == |x| + 1
  {
    [MinMaxOf(y[0])] + seq(|x|, j requires 0 <= j < |x| => MinMaxOf(x[j]))
  }

  /** `normalize` reads `norm[j+1]` for every feature column j that has at least one row. */
  predicate CanScale(norm: seq<MinMax>, x: Matrix) {
    forall j :: 0 <= j < |x| && |x[j]| > 0 ==> j + 1 < |norm|
  }

  /** The feature matrix with every entry of column j scaled by the range `norm[j+1]`. */
  function ScaleFeatures(norm: seq<MinMax>, x: Matrix): (nx: Matrix)
    requires CanScale(norm, x)
    ensures |nx| == |x|
    ensures forall j :: 0 <= j < |x| ==> |nx[j]| == |x[j]|
  {
    seq(|x|, j requires 0 <= j < |x| =>
      seq(|x[j]|, i requires 0 <= i < |x[j]| => Scale(x[j][i], norm[j + 1])))
  }

  /** The first target column scaled by `norm[0]`; no target column gives no values. */
  function ScaleTarget(norm: seq<MinMax>, y: Matrix): (ny: seq<real>)
    requires |y| > 0 && |y[0]| > 0 ==> |norm| > 0
    ensures |ny| == if |y| == 0 then 0 else |y[0]|
  {
    if |y| == 0 then [] else seq(|y[0]|, i requires 0 <= i < |y[0]| => Scale(y[0][i], norm[0]))
  }

  /** Scaled by the ranges recorded from themselves, training features and targets all lie in [0, 1]. */
  lemma TrainingDataScaledToUnit(x: Matrix, y: Matrix)
    requires |y| > 0 && |y[0]| > 0
    requires forall j :: 0 <= j < |x| ==> |x[j]| > 0
    ensures CanScale(NormOf(x, y), x)
    ensures forall j, i :: 0 <= j < |x| && 0 <= i < |x[j]| ==>
              0.0 <= ScaleFeatures(NormOf(x, y), x)[j][i] <= 1.0
    ensures forall i :: 0 <= i < |y[0]| ==> 0.0 <= ScaleTarget(NormOf(x, y), y)[i] <= 1.0
  {
    var norm := NormOf(x, y);
    forall j, i | 0 <= j < |x| && 0 <= i < |x[j]|
      ensures 0.0 <= ScaleFeatures(norm, x)[j][i] <= 1.0
    {
      assert norm[j + 1] == MinMaxOf(x[j]);
      assert ScaleFeatures(norm, x)[j][i] == Scale(x[j][i], MinMaxOf(x[j]));
      ScaledWithin(x[j], i);
    }
    forall i | 0 <= i < |y[0]|
      ensures 0.0 <= ScaleTarget(norm, y)[i] <= 1.0
    {
      assert ScaleTarget(norm, y)[i] == Scale(y[0][i], MinMaxOf(y[0]));
      ScaledWithin(y[0], i);
    }
  }

  /** One element scaled by the range of its own vector lies in [0, 1]. */
  lemma ScaledWithin(v: seq<real>, i: nat)
    requires i < |v|
    ensures 0.0 <= Scale(v[i], MinMaxOf(v)) <= 1.0
  {
    var mm := MinMaxOf(v);
    if mm.min < mm.max {
      ScaleIntoUnit(v[i], mm);
    } else {
      assert v[i] == mm.min;
    }
  }

  // ---------------------------------------------------------------------------
  // Prediction
  // ---------------------------------------------------------------------------

  /** `beta[0] + nx[0][irow]*beta[1] + ... + nx[k-1][irow]*beta[k]`, accumulated in column order. */
  function Affine(beta: seq<real>, nx: Matrix, irow: nat, k: nat): real
    requires k <= |nx| && k < |beta|
    requires forall i :: 0 <= i < k ==> irow < |nx[i]|
  {
    if k == 0 then beta[0] else Affine(beta, nx, irow, k - 1) + nx[k - 1][irow] * beta[k]
  }

  /** The affine form depends only on the values of the row it is evaluated at. */
  lemma {:induction false} AffineSameRow(beta: seq<real>, a: Matrix, ia: nat, b: Matrix, ib: nat, k: nat)
    requires k <= |a| && k <= |b| && k < |beta|
    requires forall i :: 0 <= i < k ==> ia < |a[i]| && ib < |b[i]| && a[i][ia] == b[i][ib]
    ensures Affine(beta, a, ia, k) == Affine(beta, b, ib, k)
  {
    if k > 0 {
      AffineSameRow(beta, a, ia, b, ib, k - 1);
    }
  }

  /**
   * What `predict` reads: x[0] (so a column), norm[0], the ranges of x's columns when it
   * normalises, and beta[0..|x|] as soon as there is a row.
   */
  predicate PredictReady(beta: seq<real>, norm: seq<MinMax>, x: Matrix, normalized: bool) {
    && IsMatrix(x) && |x| > 0 && |norm| > 0
    && (!normalized ==> CanScale(norm, x))
    && (NRows(x) > 0 ==> |beta| > |x|)
  }

  /** The predictions of `predict(x, normalized)`: one affine value per row, denormalised when x was raw. */
  function Outputs(beta: seq<real>, norm: seq<MinMax>, x: Matrix, normalized: bool): (zs: seq<real>)
    requires PredictReady(beta, norm, x, normalized)
    ensures |zs| == NRows(x)
  {
    var nx := if normalized then x else ScaleFeatures(norm, x);
    seq(NRows(x), irow requires 0 <= irow < NRows(x) =>
      var z := Affine(beta, nx, irow, |x|);
      if normalized then z else Unscale(z, norm[0]))
  }

  /** Predicting on raw features is denormalising the prediction on the normalised features. */
  lemma OutputsOnRawFeatures(beta: seq<real>, norm: seq<MinMax>, x: Matrix, irow: nat)
    requires PredictReady(beta, norm, x, false) && irow < NRows(x)
    ensures PredictReady(beta, norm, ScaleFeatures(norm, x), true)
    ensures Outputs(beta, norm, x, false)[irow]
         == Unscale(Outputs(beta, norm, ScaleFeatures(norm, x), true)[irow], norm[0])
  {
    var nx := ScaleFeatures(norm, x);
    assert NRows(nx) == NRows(x);
  }

  /**
   * A model whose weights reproduce a normalised target exactly predicts, on raw features,
   * the original target when the target's range is proper, and the target minimum when it is not.
   */
  lemma PredictionRecoversTarget(beta: seq<real>, norm: seq<MinMax>, x: Matrix, irow: nat, target: real)
    requires PredictReady(beta, norm, x, false) && irow < NRows(x)
    requires Affine(beta, ScaleFeatures(norm, x), irow, |x|) == Scale(target, norm[0])
    ensures Outputs(beta, norm, x, false)[irow] == if norm[0].max != norm[0].min then target else norm[0].min
  {
    UnscaleScale(target, norm[0]);
  }

  /**
   * When the recorded target range has zero width, every prediction on raw features is the target
   * minimum, whatever the weights: denormalising multiplies by `max - min`, which is 0.
   */
  lemma ZeroRangePredictsMin(beta: seq<real>, norm: seq<MinMax>, x: Matrix, irow: nat)
    requires PredictReady(beta, norm, x, false) && irow < NRows(x)
    requires norm[0].max == norm[0].min
    ensures Outputs(beta, norm, x, false)[irow] == norm[0].min
  {
    assert Outputs(beta, norm, x, false)[irow] == Unscale(Affine(beta, ScaleFeatures(norm, x), irow, |x|), norm[0]);
  }

  // ---------------------------------------------------------------------------
  // Training
  // ---------------------------------------------------------------------------

  /** The zero vector of length n. */
  function Zeros(n: nat): (z: seq<real>)
    ensures |z| == n && forall i :: 0 <= i < n ==> z[i] == 0.0
  {
    seq(n, _ => 0.0)
  }

  /** Rows 0 .. nrows-1 of the scaled features and of the scaled target exist. */
  predicate TrainReady(nx: Matrix, ny: seq<real>, nrows: nat) {
    nrows <= |ny| && forall j :: 0 <= j < |nx| ==> nrows <= |nx[j]|
  }

  /**
   * One gradient step on row irow: err = (prediction - q) * lr; the intercept moves by -err
   * and weight j+1 by -nx[j][irow] * err.
   */
  function Update(beta: seq<real>, nx: Matrix, q: real, irow: nat, lr: real): (b: seq<real>)
    requires |beta| == |nx| + 1
    requires forall j :: 0 <= j < |nx| ==> irow < |nx[j]|
    ensures |b| == |beta|
    ensures b[0] == beta[0] - (Affine(beta, nx, irow, |nx|) - q) * lr
    ensures forall j :: 0 <= j < |nx| ==> b[j + 1] - beta[j + 1] == nx[j][irow] * (b[0] - beta[0])
  {
    Stepped(beta, nx, irow, StepError(beta, nx, q, irow, lr))
  }

  /** err = (prediction on row irow - q) * lr. */
  function StepError(beta: seq<real>, nx: Matrix, q: real, irow: nat, lr: real): real
    requires |beta| == |nx| + 1
    requires forall j :: 0 <= j < |nx| ==> irow < |nx[j]|
  {
    (Affine(beta, nx, irow, |nx|) - q) * lr
  }

  /** The weights after moving the intercept by -err and weight j+1 by -nx[j][irow] * err. */
  function Stepped(beta: seq<real>, nx: Matrix, irow: nat, err: real): (b: seq<real>)
    requires |beta| == |nx| + 1
    requires forall j :: 0 <= j < |nx| ==> irow < |nx[j]|
    ensures |b| == |beta| && b[0] == beta[0] - err
    ensures forall j :: 0 <= j < |nx| ==> b[j + 1] == beta[j + 1] - nx[j][irow] * err
  {
    seq(|beta|, j requires 0 <= j < |beta| => if j == 0 then beta[0] - err else beta[j] - nx[j - 1][irow] * err)
  }

  /** One pass over rows 0 .. k-1, in order. */
  function Epoch(beta: seq<real>, nx: Matrix, ny: seq<real>, lr: real, k: nat): (b: seq<real>)
    requires |beta| == |nx| + 1 && TrainReady(nx, ny, k)
    ensures |b| == |beta|
  {
    if k == 0 then beta else Update(Epoch(beta, nx, ny, lr, k - 1), nx, ny[k - 1], k - 1, lr)
  }

  /** `e` passes over all `nrows` rows. */
  function Train(beta: seq<real>, nx: Matrix, ny: seq<real>, nrows: nat, lr: real, e: nat): (b: seq<real>)
    requires |beta| == |nx| + 1 && TrainReady(nx, ny, nrows)
    ensures |b| == |beta|
  {
    if e == 0 then beta else Epoch(Train(beta, nx, ny, nrows, lr, e - 1), nx, ny, lr, nrows)
  }

  /** Gradient steps applied on the listed rows (each below nrows), one after another. */
  function Replay(beta: seq<real>, nx: Matrix, ny: seq<real>, nrows: nat, lr: real, rows: seq<nat>): (b: seq<real>)
    requires |beta| == |nx| + 1 && TrainReady(nx, ny, nrows) && InRange(rows, nrows)
    ensures |b| == |beta|
  {
    if |rows| == 0 then beta
    else
      var last := rows[|rows| - 1];
      Update(Replay(beta, nx, ny, nrows, lr, rows[..|rows| - 1]), nx, ny[last], last, lr)
  }

  /** The order in which `fit` visits rows: 0 .. nrows-1, repeated `e` times. */
  function Schedule(e: nat, nrows: nat): (s: seq<nat>)
    ensures InRange(s, nrows)
  {
    if e == 0 then [] else Schedule(e - 1, nrows) + Indices(nrows)
  }

  /** The schedule holds e * nrows steps. */
  lemma {:induction false} ScheduleLength(e: nat, nrows: nat)
    ensures |Schedule(e, nrows)| == e * nrows
  {
    if e > 0 {
      ScheduleLength(e - 1, nrows);
      assert (e - 1) * nrows + nrows == e * nrows;
    }
  }

  /** Replaying `s + t` is replaying `s`, then `t`. */
  lemma {:induction false} ReplayAppend(beta: seq<real>, nx: Matrix, ny: seq<real>, nrows: nat, lr: real, s: seq<nat>, t: seq<nat>)
    requires |beta| == |nx| + 1 && TrainReady(nx, ny, nrows)
    requires InRange(s, nrows) && InRange(t, nrows)
    ensures InRange(s + t, nrows)
    ensures Replay(beta, nx, ny, nrows, lr, s + t) == Replay(Replay(beta, nx, ny, nrows, lr, s), nx, ny, nrows, lr, t)
  {
    if |t| > 0 {
      var t' := t[..|t| - 1];
      assert (s + t)[..|s + t| - 1] == s + t';
      ReplayAppend(beta, nx, ny, nrows, lr, s, t');
    } else {
      assert s + t == s;
    }
  }

  /** One epoch over k rows is the replay of rows 0 .. k-1. */
  lemma {:induction false} EpochIsReplay(beta: seq<real>, nx: Matrix, ny: seq<real>, lr: real, k: nat)
    requires |beta| == |nx| + 1 && TrainReady(nx, ny, k)
    ensures Epoch(beta, nx, ny, lr, k) == Replay(beta, nx, ny, k, lr, Indices(k))
  {
    if k > 0 {
      assert Indices(k)[..k - 1] == Indices(k - 1);
      EpochIsReplay(beta, nx, ny, lr, k - 1);
      ReplayWider(beta, nx, ny, k - 1, k, lr, Indices(k - 1));
    }
  }

  /** The bound on the rows plays no part in what is replayed. */
  lemma {:induction false} ReplayWider(beta: seq<real>, nx: Matrix, ny: seq<real>, n: nat, n': nat, lr: real, rows: seq<nat>)
    requires |beta| == |nx| + 1 && n <= n' && TrainReady(nx, ny, n') && InRange(rows, n)
    ensures Replay(beta, nx, ny, n, lr, rows) == Replay(beta, nx, ny, n', lr, rows)
  {
    if |rows| > 0 {
      ReplayWider(beta, nx, ny, n, n', lr, rows[..|rows| - 1]);
    }
  }

  /**
   * Training applies exactly e * nrows gradient steps, on rows 0 .. nrows-1 in order,
   * once per epoch.
   */
  lemma {:induction false} TrainIsSchedule(beta: seq<real>, nx: Matrix, ny: seq<real>, nrows: nat, lr: real, e: nat)
    requires |beta| == |nx| + 1 && TrainReady(nx, ny, nrows)
    ensures Train(beta, nx, ny, nrows, lr, e) == Replay(beta, nx, ny, nrows, lr, Schedule(e, nrows))
  {
    if e > 0 {
      var prev := Schedule(e - 1, nrows);
      TrainIsSchedule(beta, nx, ny, nrows, lr, e - 1);
      EpochIsReplay(Train(beta, nx, ny, nrows, lr, e - 1), nx, ny, lr, nrows);
      ReplayAppend(beta, nx, ny, nrows, lr, prev, Indices(nrows));
    }
  }

  // ---------------------------------------------------------------------------
  // The regressor object
  // ---------------------------------------------------------------------------

  /** The value of a Linear object's fields. */
  datatype State = State(epochs: nat, lr: real, beta: seq<real>, norm: seq<MinMax>)

  /** `Linear::new()`: 20 epochs, learning rate 0.01, no weights and no ranges. */
  function Initial(): State {
    State(20, 0.01, [], [])
  }

  /** What `fit` needs: a rectangular x with a column and a row, and a target column as long. */
  predicate FitReady(x: Matrix, y: Matrix) {
    IsMatrix(x) && |x| > 0 && NRows(x) > 0 && |y| > 0 && |y[0]| >= NRows(x)
  }

  /**
   * The state `fit(x, y)` leaves: the ranges of y[0] and of x's columns, and the weights reached
   * from zero after `epochs` passes over the normalised rows. The previous weights and ranges play no part.
   */
  function FitState(s: State, x: Matrix, y: Matrix): (r: State)
    requires FitReady(x, y)
    ensures r.epochs == s.epochs && r.lr == s.lr
    ensures |r.beta| == |x| + 1 && |r.norm| == |x| + 1
    ensures PredictReady(r.beta, r.norm, x, false)
  {
    var norm := NormOf(x, y);
    var nx := ScaleFeatures(norm, x);
    var ny := ScaleTarget(norm, y);
    State(s.epochs, s.lr, Train(Zeros(|x| + 1), nx, ny, NRows(x), s.lr, s.epochs), norm)
  }

  /** Whatever columns of the fitted width it is given, a fitted regressor can predict. */
  lemma FittedCanPredict(s: State, x: Matrix, y: Matrix, x': Matrix)
    requires FitReady(x, y)
    requires IsMatrix(x') && |x'| == |x|
    ensures PredictReady(FitState(s, x, y).beta, FitState(s, x, y).norm, x', false)
  {
  }

  /**
   * A regressor fitted on a constant target column predicts that constant on every row it is given:
   * the recorded target range has zero width.
   */
  lemma ConstantTargetPredicted(s: State, x: Matrix, y: Matrix, x': Matrix, irow: nat, c: real)
    requires FitReady(x, y) && forall k :: 0 <= k < |y[0]| ==> y[0][k] == c
    requires IsMatrix(x') && |x'| == |x| && irow < NRows(x')
    ensures PredictReady(FitState(s, x, y).beta, FitState(s, x, y).norm, x', false)
    ensures Outputs(FitState(s, x, y).beta, FitState(s, x, y).norm, x', false)[irow] == c
  {
    var r := FitState(s, x, y);
    FittedCanPredict(s, x, y, x');
    var mm := MinMaxOf(y[0]);
    assert r.norm[0] == mm;
    assert mm.min == c && mm.max == c;
    ZeroRangePredictsMin(r.beta, r.norm, x', irow);
  }

  class Linear {
    const epochs: nat
    const lr: real
    /** beta[0] is the intercept, beta[1..] the feature weights. */
    var beta: seq<real>
    /** norm[0] is the target's range, norm[1..] the features'. */
    var norm: seq<MinMax>

    ghost function Snapshot(): State
      reads this
    {
      State(epochs, lr, beta, norm)
    }

    constructor()
      ensures Snapshot() == Initial()
    {
      epochs := 20;
      lr := 0.01;
      beta := [];
      norm := [];
    }

    /** `fitnorm`: replace the recorded ranges by those of y[0] and of each column of x. */
    method FitNorm(x: Matrix, y: Matrix)
      requires |y| > 0 && |y[0]| > 0
      requires forall j :: 0 <= j < |x| ==> |x[j]| > 0
      modifies this
      ensures |norm| == |x| + 1 && norm[0] == MinMaxOf(y[0])
      ensures forall j :: 0 <= j < |x| ==> norm[j + 1] == MinMaxOf(x[j])
      ensures norm == NormOf(x, y)
      ensures beta == old(beta)
    {
      norm := [];
      var mm := CalcMinMax(y[0]);
      norm := norm + [mm];
      var n := |x|;
      for i := 0 to n
        invariant |norm| == i + 1 && norm[0] == MinMaxOf(y[0])
        invariant forall j :: 0 <= j < i ==> norm[j + 1] == MinMaxOf(x[j])
        invariant beta == old(beta)
      {
        mm := CalcMinMax(x[i]);
        norm := norm + [mm];
      }
      assert norm == NormOf(x, y);
    }

    /** `normalize`: scale each feature column by its recorded range and the first target column by norm[0]. */
    method Normalize(x: Matrix, y: Matrix) returns (expVars: Matrix, objVars: Matrix)
      requires CanScale(norm, x)
      requires |y| > 0 && |y[0]| > 0 ==> |norm| > 0
      ensures |expVars| == |x|
      ensures forall j :: 0 <= j < |x| ==> |expVars[j]| == |x[j]|
      ensures forall j, i :: 0 <= j < |x| && 0 <= i < |x[j]| ==> expVars[j][i] == Scale(x[j][i], norm[j + 1])
      ensures |objVars| == 1
      ensures |y| == 0 ==> objVars[0] == []
      ensures |y| > 0 ==> |objVars[0]| == |y[0]|
      ensures |y| > 0 ==> forall i :: 0 <= i < |y[0]| ==> objVars[0][i] == Scale(y[0][i], norm[0])
      ensures expVars == ScaleFeatures(norm, x) && objVars == [ScaleTarget(norm, y)]
    {
      var ranges: seq<real> := [];
      for k := 0 to |norm|
        invariant |ranges| == k
        invariant forall i :: 0 <= i < k ==> ranges[i] == Range(norm[i])
      {
        var e := norm[k];
        var range := e.max - e.min;
        if range == 0.0 {
          range := 1.0;
        }
        ranges := ranges + [range];
      }

      expVars := [];
      for jcol := 0 to |x|
        invariant |expVars| == jcol
        invariant forall j :: 0 <= j < jcol ==> |expVars[j]| == |x[j]|
        invariant forall j, i :: 0 <= j < jcol && 0 <= i < |x[j]| ==> expVars[j][i] == Scale(x[j][i], norm[j + 1])
      {
        var xx := x[jcol];
        var expVar: seq<real> := [];
        for i := 0 to |xx|
          invariant |expVar| == i
          invariant forall k :: 0 <= k < i ==> expVar[k] == Scale(xx[k], norm[jcol + 1])
        {
          expVar := expVar + [(xx[i] - norm[jcol + 1].min) / ranges[jcol + 1]];
        }
        expVars := expVars + [expVar];
      }

      var objVar: seq<real> := [];
      if |y| > 0 {
        for i := 0 to |y[0]|
          invariant |objVar| == i
          invariant forall k :: 0 <= k < i ==> objVar[k] == Scale(y[0][k], norm[0])
        {
          objVar := objVar + [(y[0][i] - norm[0].min) / ranges[0]];
        }
      }
      objVars := [objVar];
      forall j | 0 <= j < |x|
        ensures expVars[j] == ScaleFeatures(norm, x)[j]
      {
      }
      assert expVars == ScaleFeatures(norm, x);
      assert objVar == ScaleTarget(norm, y);
    }

    /** `predict`: one value per row, beta[0] + sum of nx[i][irow] * beta[i+1], denormalised when x is raw. */
    method Predict(x: Matrix, normalized: bool) returns (zs: seq<real>)
      requires PredictReady(beta, norm, x, normalized)
      ensures zs == Outputs(beta, norm, x, normalized)
    {
      var nx: Matrix;
      if !normalized {
        var dummy: Matrix := [];
        var unused;
        nx, unused := Normalize(x, dummy);
      } else {
        nx := x;
      }

      var n := |x|;
      var m := |x[0]|;
      var objMin := norm[0].min;
      var objRange := norm[0].max - norm[0].min;

      ghost var spec := Outputs(beta, norm, x, normalized);
      assert nx == if normalized then x else ScaleFeatures(norm, x);
      zs := Zeros(m);
      for irow := 0 to m
        invariant |zs| == m
        invariant forall r :: 0 <= r < irow ==> zs[r] == spec[r]
      {
        var z := beta[0];
        for i := 0 to n
          invariant z == Affine(beta, nx, irow, i)
        {
          z := z + nx[i][irow] * beta[i + 1];
        }
        if !normalized {
          z := z * objRange + objMin;
        }
        assert spec[irow] == (var z' := Affine(beta, nx, irow, n); if normalized then z' else Unscale(z', norm[0]));
        zs := zs[irow := z];
      }
    }

    /**
     * `fit`: record the ranges, normalise, start from the zero vector of length |x|+1 and apply
     * one gradient step per row, rows in order, `epochs` times.
     */
    method Fit(x: Matrix, y: Matrix)
      requires FitReady(x, y)
      modifies this
      ensures Snapshot() == FitState(old(Snapshot()), x, y)
    {
      FitNorm(x, y);
      var nx, ny := Normalize(x, y);
      assert nx == ScaleFeatures(NormOf(x, y), x) && ny[0] == ScaleTarget(NormOf(x, y), y);
      RunEpochs(nx, ny[0], |x[0]|);
    }

    /** The epoch loop of `fit`: start from the zero vector of length |nx|+1, then `epochs` passes over the rows. */
    method RunEpochs(nx: Matrix, ny: seq<real>, nrows: nat)
      requires |nx| > 0 && |norm| > 0 && TrainReady(nx, ny, nrows)
      modifies this`beta
      ensures beta == Train(Zeros(|nx| + 1), nx, ny, nrows, lr, epochs)
    {
      beta := Zeros(|nx| + 1);
      for e := 0 to epochs
        invariant beta == Train(Zeros(|nx| + 1), nx, ny, nrows, lr, e)
      {
        RunEpoch(nx, ny, nrows);
      }
    }

    /** One pass of `fit`'s row loop: a gradient step on each of rows 0 .. nrows-1, in order. */
    method RunEpoch(nx: Matrix, ny: seq<real>, nrows: nat)
      requires |nx| > 0 && |beta| == |nx| + 1 && |norm| > 0
      requires TrainReady(nx, ny, nrows)
      modifies this`beta
      ensures beta == Epoch(old(beta), nx, ny, lr, nrows)
    {
      for irow := 0 to nrows
        invariant |beta| == |nx| + 1
        invariant beta == Epoch(old(beta), nx, ny, lr, irow)
      {
        GradientStep(nx, ny[irow], irow);
      }
    }
  
    /**
     * The body of `fit`'s row loop: predict row irow of the normalised features through `predict`,
     * then move the intercept by -err and weight j+1 by -nx[j][irow] * err, err = (prediction - q) * lr.
     */
    method GradientStep(nx: Matrix, q: real, irow: nat)
      requires |nx| > 0 && |beta| == |nx| + 1 && |norm| > 0
      requires forall j :: 0 <= j < |nx| ==> irow < |nx[j]|
      modifies this`beta
      ensures beta == Update(old(beta), nx, q, irow, lr)
    {
      var nExpVars := |nx|;
      var p: Matrix := [];
      for jcol := 0 to nExpVars
        invariant |p| == jcol
        invariant forall j :: 0 <= j < jcol ==> p[j] == [nx[j][irow]]
      {
        p := p + [[nx[jcol][irow]]];
      }
      var z := Predict(p, true);
      AffineSameRow(beta, p, 0, nx, irow, nExpVars);
      var err := (z[0] - q) * lr;
      ghost var before := beta;
      assert z[0] == Affine(before, nx, irow, nExpVars);
      assert err == StepError(before, nx, q, irow, lr);
      ApplyStep(nx, irow, err);
    }

    /** The in-place update of `fit`'s row loop: the intercept moves by -err, weight j+1 by -nx[j][irow] * err. */
    method ApplyStep(nx: Matrix, irow: nat, err: real)
      requires |beta| == |nx| + 1
      requires forall j :: 0 <= j < |nx| ==> irow < |nx[j]|
      modifies this`beta
      ensures beta == Stepped(old(beta), nx, irow, err)
    {
      var nExpVars := |nx|;
      ghost var before := beta;
      beta := beta[0 := beta[0] - err];
      for jcol := 0 to nExpVars
        invariant |beta| == nExpVars + 1
        invariant beta[0] == before[0] - err
        invariant forall j :: 0 <= j < jcol ==> beta[j + 1] == before[j + 1] - nx[j][irow] * err
        invariant forall j :: jcol < j <= nExpVars ==> beta[j] == before[j]
      {
        var delta := nx[jcol][irow] * err;
        beta := beta[jcol + 1 := beta[jcol + 1] - delta];
      }
      ghost var after := Stepped(before, nx, irow, err);
      forall j | 0 <= j < |beta|
        ensures beta[j] == after[j]
      {
        if j > 0 {
          assert beta[(j - 1) + 1] == after[(j - 1) + 1];
        }
      }
    }
  }
}
