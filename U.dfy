/** Column-major matrices and the numeric helpers shared by the models (ex1/src/U.rs). */
module U {

  /** A double as this model sees it: a finite value, +infinity or NaN. Rounding is not modelled. */
  datatype F64 = Fin(val: real) | Inf | NaN

  /** The double comparison `a < b`: false whenever NaN is involved, and +infinity lies above every finite value. */
  predicate Less(a: F64, b: F64) {
    match (a, b)
    case (Fin(p), Fin(q)) => p < q
    case (Fin(_), Inf) => true
    case _ => false
  }

  /** `a < b <= c` gives `a < c` as long as `c` is not NaN. */
  lemma LessTrans(a: F64, b: F64, c: F64)
    requires Less(a, b) && !Less(c, b) && !c.NaN?
    ensures Less(a, c)
  {
  }

  /** Matrix[jcol][irow]: a sequence of columns. */
  type Matrix = seq<seq<real>>

  /** The row count, read off the first column as the source does with `m[0].len()`. */
  function NRows(m: Matrix): nat {
    if |m| == 0 then 0 else |m[0]|
  }

  /** Every column has the same length. */
  predicate IsMatrix(m: Matrix) {
    forall j :: 0 <= j < |m| ==> |m[j]| == NRows(m)
  }

  /** Every index of `idx` is below `n`. */
  predicate InRange(idx: seq<nat>, n: nat) {
    forall k :: 0 <= k < |idx| ==> idx[k] < n
  }

  /** The row indices 0, 1, ..., n-1 in ascending order. */
  function Indices(n: nat): (s: seq<nat>)
    ensures |s| == n && InRange(s, n)
    ensures forall k :: 0 <= k < n ==> s[k] == k
  {
    seq(n, k => k)
  }

  /**
   * The sub-matrix made of the rows listed in `idx`, in that order, copied column by column.
   * (U::MatSelectRow is called by the tree but is not part of this model; this is its meaning.)
   */
  function SelectRows(m: Matrix, idx: seq<nat>): (s: Matrix)
    requires IsMatrix(m) && InRange(idx, NRows(m))
    ensures |s| == |m| && IsMatrix(s)
    ensures |m| > 0 ==> NRows(s) == |idx|
  {
    seq(|m|, j requires 0 <= j < |m| => seq(|idx|, k requires 0 <= k < |idx| => m[j][idx[k]]))
  }

  /** The row list that picks, for each entry of `b`, the row `a` lists at that position. */
  function Compose(a: seq<nat>, b: seq<nat>): (c: seq<nat>)
    requires InRange(b, |a|)
    ensures |c| == |b|
  {
    seq(|b|, k requires 0 <= k < |b| => a[b[k]])
  }

  /** Selecting rows `b` of the selection of rows `a` is one selection of the composed rows. */
  lemma SelectRowsCompose(m: Matrix, a: seq<nat>, b: seq<nat>)
    requires IsMatrix(m) && |m| > 0 && InRange(a, NRows(m)) && InRange(b, |a|)
    ensures InRange(Compose(a, b), NRows(m))
    ensures SelectRows(SelectRows(m, a), b) == SelectRows(m, Compose(a, b))
  {
    var c := Compose(a, b);
    var l, r := SelectRows(SelectRows(m, a), b), SelectRows(m, c);
    forall j | 0 <= j < |m|
      ensures l[j] == r[j]
    {
    }
  }

  /** Selecting every row, in order, gives the matrix back. */
  lemma SelectAllRows(m: Matrix)
    requires IsMatrix(m)
    ensures SelectRows(m, Indices(NRows(m))) == m
  {
    var s := SelectRows(m, Indices(NRows(m)));
    forall j | 0 <= j < |m|
      ensures s[j] == m[j]
    {
    }
  }

  /** The left fold `v.iter().fold(0.0, |total, e| total + e)`. */
  function Sum(v: seq<real>): real {
    if |v| == 0 then 0.0 else Sum(v[..|v| - 1]) + v[|v| - 1]
  }

  /** The sum of `n` copies of `c`. */
  lemma {:induction false} SumConstant(v: seq<real>, c: real)
    requires forall i :: 0 <= i < |v| ==> v[i] == c
    ensures Sum(v) == |v| as real * c
  {
    if |v| > 0 {
      SumConstant(v[..|v| - 1], c);
    }
  }

  /** Every element lies in [lo, hi], so the sum lies in [|v|*lo, |v|*hi]. */
  lemma {:induction false} SumBounds(v: seq<real>, lo: real, hi: real)
    requires forall i :: 0 <= i < |v| ==> lo <= v[i] <= hi
    ensures |v| as real * lo <= Sum(v) <= |v| as real * hi
  {
    if |v| > 0 {
      SumBounds(v[..|v| - 1], lo, hi);
    }
  }

  /** The arithmetic mean `sum / len`; with no elements this is 0.0 / 0.0, which is NaN. */
  function Mean(v: seq<real>): (r: F64)
    ensures r.NaN? <==> |v| == 0
    ensures |v| > 0 ==> r.Fin? && r.val * |v| as real == Sum(v)
  {
    if |v| == 0 then NaN else Fin(Sum(v) / |v| as real)
  }

  /** The mean of a non-empty constant vector is that constant. */
  lemma MeanOfConstant(v: seq<real>, c: real)
    requires |v| > 0
    requires forall i :: 0 <= i < |v| ==> v[i] == c
    ensures Mean(v) == Fin(c)
  {
    SumConstant(v, c);
  }

  /** The mean of a non-empty vector lies between its minimum and its maximum. */
  lemma MeanWithinMinMax(v: seq<real>)
    requires |v| > 0
    ensures Mean(v).Fin? && MinMaxOf(v).min <= Mean(v).val <= MinMaxOf(v).max
  {
    var mm := MinMaxOf(v);
    MeanBounds(v, mm.min, mm.max);
  }

  /** Bounds on the elements carry over to the mean. */
  lemma MeanBounds(v: seq<real>, lo: real, hi: real)
    requires |v| > 0
    requires forall i :: 0 <= i < |v| ==> lo <= v[i] <= hi
    ensures Mean(v).Fin? && lo <= Mean(v).val <= hi
  {
    SumBounds(v, lo, hi);
    DivideBounds(Sum(v), |v| as real, lo, hi);
  }

  /** Dividing `n*lo <= s <= n*hi` by a positive `n`. */
  lemma DivideBounds(s: real, n: real, lo: real, hi: real)
    requires n > 0.0 && n * lo <= s <= n * hi
    ensures lo <= s / n <= hi
  {
    assert s / n * n == s;
  }

  /** The smallest and the largest value of a vector. */
  datatype MinMax = MinMax(min: real, max: real)

  /**
   * The result of the single left-to-right pass of `calcMinMax`: start from the first element,
   * then lower `min` on a strictly smaller value and raise `max` on a strictly larger one.
   */
  function MinMaxOf(v: seq<real>): (mm: MinMax)
    requires |v| > 0
    ensures mm.min <= mm.max
    ensures forall i :: 0 <= i < |v| ==> mm.min <= v[i] <= mm.max
    ensures mm.min in v && mm.max in v
  {
    if |v| == 1 then MinMax(v[0], v[0])
    else
      var p := MinMaxOf(v[..|v| - 1]);
      var e := v[|v| - 1];
      assert v == v[..|v| - 1] + [e];
      MinMax(if e < p.min then e else p.min, if e > p.max then e else p.max)
  }

  /** `calcMinMax`: the source reads `v[0]` unguarded, so `v` must not be empty. */
  method CalcMinMax(v: seq<real>) returns (mm: MinMax)
    requires |v| > 0
    ensures mm == MinMaxOf(v)
  {
    var min, max := v[0], v[0];
    var n := |v|;
    for i := 1 to n
      invariant MinMax(min, max) == MinMaxOf(v[..i])
    {
      var e := v[i];
      if e < min {
        min := e;
      }
      if e > max {
        max := e;
      }
      assert v[..i + 1][..i] == v[..i];
    }
    assert v[..n] == v;
    mm := MinMax(min, max);
  }

  /** An unsigned 32-bit integer, the type of the CSV counters. */
  newtype u32 = x: int | 0 <= x < 0x1_0000_0000

  /** Parsed delimited data: counters, the columns and their names. */
  datatype Csv = Csv(ncols: u32, nrows: u32, cols: seq<seq<real>>, colNames: seq<string>)

  /**
   * `CSV::clonePartial`: a new CSV holding columns startCol .. endCol-1 and their names.
   * The column count is `(endCol - startCol) as u32`, which truncates to 32 bits.
   */
  method ClonePartial(csv: Csv, startCol: nat, endCol: nat) returns (r: Csv)
    requires startCol <= endCol <= |csv.cols| && endCol <= |csv.colNames|
    ensures r.nrows == csv.nrows
    ensures r.ncols as int == (endCol - startCol) % 0x1_0000_0000
    ensures |r.cols| == |r.colNames| == endCol - startCol
    ensures forall k :: 0 <= k < endCol - startCol ==>
              r.cols[k] == csv.cols[startCol + k] && r.colNames[k] == csv.colNames[startCol + k]
  {
    var newCols: seq<seq<real>> := [];
    var newColNames: seq<string> := [];
    for i := startCol to endCol
      invariant newCols == csv.cols[startCol..i]
      invariant newColNames == csv.colNames[startCol..i]
    {
      newCols := newCols + [csv.cols[i]];
      newColNames := newColNames + [csv.colNames[i]];
    }
    r := Csv(((endCol - startCol) % 0x1_0000_0000) as u32, csv.nrows, newCols, newColNames);
  }
}
