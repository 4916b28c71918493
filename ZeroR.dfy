/** The zero-rule baseline (ex1/src/zeror.rs): predict the training mean of every target column. */
module ZeroR {
  import opened U

  /** The mean of every column of y, in column order. */
  function Means(y: Matrix): (r: seq<F64>)
    ensures |r| == |y|
  {
    seq(|y|, i requires 0 <= i < |y| => Mean(y[i]))
  }

  /** n copies of v. */
  function Repeat(v: F64, n: nat): (s: seq<F64>)
    ensures |s| == n
  {
    seq(n, _ => v)
  }

  /** A prediction: one column per stored value, each holding that value in every one of nrows rows. */
  function Constant(r: seq<F64>, nrows: nat): (m: seq<seq<F64>>)
    ensures |m| == |r|
  {
    seq(|r|, i requires 0 <= i < |r| => Repeat(r[i], nrows))
  }

  /** The prediction has |r| columns of nrows entries, and every entry of column i is r[i]. */
  lemma ConstantShape(r: seq<F64>, nrows: nat)
    ensures var m := Constant(r, nrows);
            forall i :: 0 <= i < |r| ==> |m[i]| == nrows && forall j :: 0 <= j < nrows ==> m[i][j] == r[i]
  {
  }

  /** After fitting on y, every predicted entry of column i is the mean of y's column i, whatever x holds. */
  lemma PredictsTrainingMean(y: Matrix, nrows: nat, i: nat, j: nat)
    requires i < |y| && j < nrows
    ensures Constant(Means(y), nrows)[i][j] == Mean(y[i])
  {
  }

  /** A target column that is constant and non-empty is predicted exactly. */
  lemma ConstantTargetPredicted(y: Matrix, nrows: nat, i: nat, c: real)
    requires i < |y| && |y[i]| > 0
    requires forall k :: 0 <= k < |y[i]| ==> y[i][k] == c
    ensures forall j :: 0 <= j < nrows ==> Constant(Means(y), nrows)[i][j] == Fin(c)
  {
    MeanOfConstant(y[i], c);
  }

  /** Each prediction from a non-empty target column lies between that column's minimum and maximum. */
  lemma PredictionWithinTargetRange(y: Matrix, nrows: nat, i: nat, j: nat)
    requires i < |y| && |y[i]| > 0 && j < nrows
    ensures var p := Constant(Means(y), nrows)[i][j];
            p.Fin? && MinMaxOf(y[i]).min <= p.val <= MinMaxOf(y[i]).max
  {
    MeanWithinMinMax(y[i]);
  }

  /** An empty target column has no mean: its predictions are NaN (0.0 / 0.0). */
  lemma EmptyTargetPredictsNaN(y: Matrix, nrows: nat, i: nat, j: nat)
    requires i < |y| && |y[i]| == 0 && j < nrows
    ensures Constant(Means(y), nrows)[i][j].NaN?
  {
  }

  /** `ZeroRule`: the stored column means. */
  class ZeroRule {
    var r: seq<F64>

    /** `ZeroRule::new`: nothing stored. */
    constructor()
      ensures r == []
    {
      r := [];
    }

    /**
     * `fit`: clear the stored means, then push the mean of each column of y. x is not used, and nothing
     * stored before survives a refit.
     */
    method Fit(x: Matrix, y: Matrix)
      modifies this
      ensures r == Means(y)
    {
      r := [];
      for i := 0 to |y|
        invariant r == Means(y[..i])
      {
        assert Means(y[..i + 1]) == Means(y[..i]) + [Mean(y[i])];
        r := r + [Mean(y[i])];
      }
      assert y[..|y|] == y;
    }

    /**
     * `predict`: one column per stored mean, each repeating that mean once per row of x. Only the row
     * count of x is read, from its first column.
     */
    method Predict(x: Matrix) returns (result: seq<seq<F64>>)
      requires |x| > 0
      ensures result == Constant(r, |x[0]|)
    {
      result := [];
      var ncols := |r|;
      var nrows := |x[0]|;
      for icol := 0 to ncols
        invariant result == Constant(r[..icol], nrows)
      {
        var resultCol: seq<F64> := [];
        for k := 0 to nrows
          invariant resultCol == Repeat(r[icol], k)
        {
          assert Repeat(r[icol], k + 1) == Repeat(r[icol], k) + [r[icol]];
          resultCol := resultCol + [r[icol]];
        }
        assert Constant(r[..icol + 1], nrows) == Constant(r[..icol], nrows) + [resultCol];
        result := result + [resultCol];
      }
      assert r[..ncols] == r;
    }
  }
}
