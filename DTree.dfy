/**
 * The model tree of ex1/src/dtree.rs: a binary decision tree whose splits minimise a
 * row-weighted impurity and whose leaves are linear regressors.
 */
module DTree {
  import opened U
  import Linear

  // ---------------------------------------------------------------------------
  // Impurity metrics
  // ---------------------------------------------------------------------------

  /** The sum over columns 0 .. k-1 of (column sum / n)^2. */
  function SquaredShares(y: Matrix, n: real, k: nat): (s: real)
    requires n != 0.0 && k <= |y|
    ensures s >= 0.0
  {
    if k == 0 then 0.0
    else
      var p := Sum(y[k - 1]) / n;
      assert p * p >= 0.0;
      SquaredShares(y, n, k - 1) + p * p
  }

  /**
   * `gini`: 1 minus the sum of the squared category shares, a share being a column sum over the
   * row count. With no rows every share is 0.0 / 0.0, so the result is NaN.
   */
  function Gini(y: Matrix): (r: F64)
    requires |y| > 0 && IsMatrix(y)
    ensures r.NaN? <==> NRows(y) == 0
    ensures NRows(y) > 0 ==> r.Fin? && r.val <= 1.0
  {
    var size := NRows(y);
    if size == 0 then NaN else Fin(1.0 - SquaredShares(y, size as real, |y|))
  }

  /** One-hot rows all in category c: the share of c is 1 and every other share is 0. */
  predicate PureOneHot(y: Matrix, c: nat) {
    c < |y| && forall j, i :: 0 <= j < |y| && 0 <= i < |y[j]| ==> y[j][i] == if j == c then 1.0 else 0.0
  }

  /** A node whose rows all fall in one category has Gini impurity 0. */
  lemma GiniOfPureNode(y: Matrix, c: nat)
    requires IsMatrix(y) && NRows(y) > 0 && PureOneHot(y, c)
    ensures Gini(y) == Fin(0.0)
  {
    var n := NRows(y) as real;
    SharesOfPure(y, c, n, |y|);
  }

  lemma {:induction false} SharesOfPure(y: Matrix, c: nat, n: real, k: nat)
    requires IsMatrix(y) && NRows(y) > 0 && PureOneHot(y, c) && n == NRows(y) as real && k <= |y|
    ensures SquaredShares(y, n, k) == if c < k then 1.0 else 0.0
  {
    if k > 0 {
      SharesOfPure(y, c, n, k - 1);
      ShareOfPure(y, c, n, k - 1);
    }
  }

  /** In a pure node, the share of category c is 1 and every other share is 0. */
  lemma ShareOfPure(y: Matrix, c: nat, n: real, j: nat)
    requires IsMatrix(y) && NRows(y) > 0 && PureOneHot(y, c) && n == NRows(y) as real && j < |y|
    ensures Sum(y[j]) / n == if j == c then 1.0 else 0.0
  {
    var col := y[j];
    if j == c {
      SumConstant(col, 1.0);
      assert Sum(col) == n;
    } else {
      SumConstant(col, 0.0);
    }
  }

  /** `deviation`: the spread of the first column, by the given measure. */
  function Deviation(stdev: seq<real> -> real, y: Matrix): real
    requires |y| > 0
  {
    stdev(y[0])
  }

  /** The deviation reads the first target column only: matrices that share it have the same deviation. */
  lemma DeviationOfFirstColumn(stdev: seq<real> -> real, y: Matrix, y': Matrix)
    requires |y| > 0 && |y'| > 0 && y[0] == y'[0]
    ensures Deviation(stdev, y) == Deviation(stdev, y')
  {
  }

  // ---------------------------------------------------------------------------
  // Splitting on a threshold
  // ---------------------------------------------------------------------------

  /** Strictly increasing, hence free of duplicates. */
  predicate Ascending(s: seq<nat>) {
    forall a, b :: 0 <= a < b < |s| ==> s[a] < s[b]
  }

  /** The row indices below k, split into those whose value is `< val` and the others. */
  function SplitUpTo(feat: seq<real>, val: F64, k: nat): (p: (seq<nat>, seq<nat>))
    requires k <= |feat|
    ensures |p.0| + |p.1| == k
    ensures InRange(p.0, k) && InRange(p.1, k)
  {
    if k == 0 then ([], [])
    else
      var q := SplitUpTo(feat, val, k - 1);
      if Less(Fin(feat[k - 1]), val) then (q.0 + [k - 1], q.1) else (q.0, q.1 + [k - 1])
  }

  /** Both sides of the split of the rows below k are ascending. */
  lemma {:induction false} SplitUpToAscending(feat: seq<real>, val: F64, k: nat)
    requires k <= |feat|
    ensures Ascending(SplitUpTo(feat, val, k).0) && Ascending(SplitUpTo(feat, val, k).1)
  {
    if k > 0 {
      SplitUpToAscending(feat, val, k - 1);
    }
  }

  /** Row i below k lies on the left exactly when its value is `< val`, and on the right otherwise. */
  lemma {:induction false} SplitUpToMembers(feat: seq<real>, val: F64, k: nat)
    requires k <= |feat|
    ensures var p := SplitUpTo(feat, val, k);
            forall i :: 0 <= i < k ==> (i in p.0 <==> Less(Fin(feat[i]), val)) && (i in p.1 <==> !Less(Fin(feat[i]), val))
  {
    if k > 0 {
      SplitUpToMembers(feat, val, k - 1);
      var q := SplitUpTo(feat, val, k - 1);
      assert k - 1 !in q.0 && k - 1 !in q.1;
    }
  }

  /** +infinity sends every row left, NaN every row right. */
  lemma {:induction false} SplitUpToSentinels(feat: seq<real>, val: F64, k: nat)
    requires k <= |feat|
    ensures val.Inf? ==> SplitUpTo(feat, val, k).1 == []
    ensures val.NaN? ==> SplitUpTo(feat, val, k).0 == []
  {
    if k > 0 {
      SplitUpToSentinels(feat, val, k - 1);
    }
  }

  /** The split of every row of `feat`. */
  function SplitOf(feat: seq<real>, val: F64): (p: (seq<nat>, seq<nat>))
    ensures |p.0| + |p.1| == |feat|
    ensures InRange(p.0, |feat|) && InRange(p.1, |feat|)
  {
    SplitUpTo(feat, val, |feat|)
  }

  /**
   * The split partitions the rows: the left side is exactly the ascending list of the rows whose value is
   * `< val`, the right side the ascending list of the others. A NaN threshold sends every row right and
   * +infinity every row left.
   */
  lemma SplitFacts(feat: seq<real>, val: F64)
    ensures var p := SplitOf(feat, val);
            && Ascending(p.0) && Ascending(p.1)
            && (forall i :: 0 <= i < |feat| ==> (i in p.0 <==> Less(Fin(feat[i]), val)))
            && (forall i :: 0 <= i < |feat| ==> (i in p.1 <==> !Less(Fin(feat[i]), val)))
            && (val.Inf? ==> p.1 == [])
            && (val.NaN? ==> p.0 == [])
  {
    SplitUpToAscending(feat, val, |feat|);
    SplitUpToMembers(feat, val, |feat|);
    SplitUpToSentinels(feat, val, |feat|);
  }

  /**
   * `make_split`: row i goes left when `feat[i] < val`, right otherwise. A NaN threshold sends every
   * row right and +infinity every row left.
   */
  method MakeSplit(feat: seq<real>, val: F64) returns (left: seq<nat>, right: seq<nat>)
    ensures (left, right) == SplitOf(feat, val)
  {
    left, right := [], [];
    for i := 0 to |feat|
      invariant (left, right) == SplitUpTo(feat, val, i)
    {
      if Less(Fin(feat[i]), val) {
        left := left + [i];
      } else {
        right := right + [i];
      }
    }
  }

  // ---------------------------------------------------------------------------
  // The loss of a split
  // ---------------------------------------------------------------------------

  /**
   * `make_loss`: +infinity when either side has no rows, otherwise the metric of each side
   * weighted by that side's share of the rows.
   */
  function MakeLoss(stdev: seq<real> -> real, y1: Matrix, y2: Matrix): (r: F64)
    requires |y1| > 0 && |y2| > 0
    ensures r.Inf? <==> |y1[0]| == 0 || |y2[0]| == 0
    ensures !r.NaN?
  {
    var n1, n2 := |y1[0]|, |y2[0]|;
    if n1 == 0 || n2 == 0 then Inf
    else
      var total := (n1 + n2) as real;
      Fin(Deviation(stdev, y1) * (n1 as real / total) + Deviation(stdev, y2) * (n2 as real / total))
  }

  /**
   * The two weights of a loss are positive and sum to 1, so a finite loss lies between the two side
   * metrics; each side's weight is its own row count, so the row-weighted deviations from the loss cancel.
   */
  lemma LossIsWeightedMean(stdev: seq<real> -> real, y1: Matrix, y2: Matrix)
    requires |y1| > 0 && |y2| > 0 && |y1[0]| > 0 && |y2[0]| > 0
    ensures var total := (|y1[0]| + |y2[0]|) as real;
            var w1, w2 := |y1[0]| as real / total, |y2[0]| as real / total;
            0.0 < w1 && 0.0 < w2 && w1 + w2 == 1.0
    ensures var m1, m2 := Deviation(stdev, y1), Deviation(stdev, y2);
            var r := MakeLoss(stdev, y1, y2).val;
            (m1 <= r <= m2) || (m2 <= r <= m1)
  ensures var n1, n2 := |y1[0]| as real, |y2[0]| as real;
          var r := MakeLoss(stdev, y1, y2).val;
          n1 * (r - Deviation(stdev, y1)) + n2 * (r - Deviation(stdev, y2)) == 0.0
  {
    var n1, n2 := |y1[0]| as real, |y2[0]| as real;
    var total := n1 + n2;
    WeightsSumToOne(n1, n2);
    Between(Deviation(stdev, y1), Deviation(stdev, y2), n1 / total, n2 / total);
    var m1, m2 := Deviation(stdev, y1), Deviation(stdev, y2);
    var r := MakeLoss(stdev, y1, y2).val;
    assert r == m1 * (n1 / total) + m2 * (n2 / total);
    assert r * total == m1 * n1 + m2 * n2;
  }

  lemma WeightsSumToOne(n1: real, n2: real)
    requires n1 > 0.0 && n2 > 0.0
    ensures 0.0 < n1 / (n1 + n2) && 0.0 < n2 / (n1 + n2) && n1 / (n1 + n2) + n2 / (n1 + n2) == 1.0
  {
    var t := n1 + n2;
    assert n1 / t + n2 / t == (n1 + n2) / t;
  }

  lemma Between(m1: real, m2: real, w1: real, w2: real)
    requires 0.0 < w1 && 0.0 < w2 && w1 + w2 == 1.0
    ensures var r := m1 * w1 + m2 * w2; (m1 <= r <= m2) || (m2 <= r <= m1)
  {
    var d := m2 - m1;
    assert m1 * w1 + m2 * w2 == m1 + d * w2;
    ProductWithin(d, w2);
  }

  /** d * w lies between 0 and d when 0 < w < 1. */
  lemma ProductWithin(d: real, w: real)
    requires 0.0 < w < 1.0
    ensures (0.0 <= d * w <= d) || (d <= d * w <= 0.0)
  {
    if d >= 0.0 {
      assert d - d * w == d * (1.0 - w);
    } else {
      assert d * w - d == (-d) * (1.0 - w);
    }
  }

  // ---------------------------------------------------------------------------
  // The exhaustive search of `split_tree`
  // ---------------------------------------------------------------------------

  /** What the search needs: x has a column, both matrices are rectangular, and y has every row of x. */
  predicate SplitReady(x: Matrix, y: Matrix) {
    IsMatrix(x) && |x| > 0 && IsMatrix(y) && NRows(x) <= NRows(y)
  }

  /** A candidate split: the value in row `row` of column `col` as the threshold on that column. */
  datatype Candidate = Candidate(col: nat, row: nat)

  predicate IsCandidate(x: Matrix, c: Candidate) {
    c.col < |x| && c.row < |x[c.col]|
  }

  /** Column-major visiting order: by column, then by row. */
  predicate Before(a: Candidate, b: Candidate) {
    a.col < b.col || (a.col == b.col && a.row < b.row)
  }

  /** A position of the nested loops of `split_tree`: before row k of column i, or past the last column. */
  predicate Position(x: Matrix, i: nat, k: nat) {
    i <= |x| && (i < |x| ==> k <= |x[i]|) && (i == |x| ==> k == 0)
  }

  /** The loss of splitting the rows of y by a candidate. */
  function Loss(stdev: seq<real> -> real, x: Matrix, y: Matrix, c: Candidate): (r: F64)
    requires SplitReady(x, y) && IsCandidate(x, c)
    ensures !r.NaN?
  {
    var p := SplitOf(x[c.col], Fin(x[c.col][c.row]));
    MakeLoss(stdev, SelectRows(y, p.0), SelectRows(y, p.1))
  }

  /** The running best of the search: score, chosen column and threshold, and the split it makes. */
  datatype Choice = Choice(score: F64, featIndex: nat, featVal: F64, left: seq<nat>, right: seq<nat>)

  /** Before any candidate: score and threshold +infinity, column 0, every row left. */
  function Initial(nrow: nat): Choice {
    Choice(Inf, 0, Inf, Indices(nrow), [])
  }

  /** The choice a candidate makes when it wins. */
  function ChoiceOf(stdev: seq<real> -> real, x: Matrix, y: Matrix, c: Candidate): (b: Choice)
    requires SplitReady(x, y) && IsCandidate(x, c)
    ensures b.featIndex < |x| && InRange(b.left, NRows(x)) && InRange(b.right, NRows(x))
  {
    var val := Fin(x[c.col][c.row]);
    var p := SplitOf(x[c.col], val);
    Choice(Loss(stdev, x, y, c), c.col, val, p.0, p.1)
  }

  /** What a choice must satisfy to be usable on x: its column exists and its sides hold rows of x. */
  predicate Sound(x: Matrix, b: Choice) {
    b.featIndex < |x| && InRange(b.left, NRows(x)) && InRange(b.right, NRows(x))
  }

  /**
   * A table giving each candidate of x a choice, as the search does: every entry is sound, has a finite
   * threshold and a score that is not NaN; the starting choice is sound and scores +infinity.
   */
  ghost predicate ScanReady(ch: Candidate -> Choice, x: Matrix, init: Choice) {
    && Sound(x, init) && init.score.Inf?
    && forall c :: IsCandidate(x, c) ==> Sound(x, ch(c)) && ch(c).featVal.Fin? && !ch(c).score.NaN?
  }

  /**
   * The running best over the entries of the table `ch`, visited column by column and row by row up to
   * row k of column i: an entry replaces the best so far exactly when its score is strictly smaller.
   */
  function Scan(ch: Candidate -> Choice, x: Matrix, init: Choice, i: nat, k: nat): (b: Choice)
    requires ScanReady(ch, x, init) && Position(x, i, k)
    ensures Sound(x, b) && ((b.score.Fin? && b.featVal.Fin?) || b == init)
    decreases i, k
  {
    if k == 0 then
      if i == 0 then init else Scan(ch, x, init, i - 1, |x[i - 1]|)
    else
      var prev := Scan(ch, x, init, i, k - 1);
      var next := ch(Candidate(i, k - 1));
      if Less(next.score, prev.score) then next else prev
  }

  /** No entry visited so far scores strictly below the running best. */
  lemma {:induction false} ScanIsMinimal(ch: Candidate -> Choice, x: Matrix, init: Choice, i: nat, k: nat, c: Candidate)
    requires ScanReady(ch, x, init) && Position(x, i, k) && IsCandidate(x, c) && Before(c, Candidate(i, k))
    ensures !Less(ch(c).score, Scan(ch, x, init, i, k).score)
    decreases i, k
  {
    if k > 0 {
      if c != Candidate(i, k - 1) {
        ScanIsMinimal(ch, x, init, i, k - 1, c);
      }
    } else if i > 0 {
      ScanIsMinimal(ch, x, init, i - 1, |x[i - 1]|, c);
    } else {
      assert false;
    }
  }

  /**
   * A finite running best is the entry of a visited candidate w, and every candidate visited before w
   * scored strictly higher.
   */
  lemma {:induction false} ScanWinner(ch: Candidate -> Choice, x: Matrix, init: Choice, i: nat, k: nat) returns (w: Candidate)
    requires ScanReady(ch, x, init) && Position(x, i, k) && Scan(ch, x, init, i, k).score.Fin?
    ensures IsCandidate(x, w) && Before(w, Candidate(i, k)) && Scan(ch, x, init, i, k) == ch(w)
    ensures forall c :: IsCandidate(x, c) && Before(c, w) ==> Less(ch(w).score, ch(c).score)
    decreases i, k
  {
    if k > 0 {
      var prev := Scan(ch, x, init, i, k - 1);
      w := Candidate(i, k - 1);
      if Less(ch(w).score, prev.score) {
        forall c | IsCandidate(x, c) && Before(c, w)
          ensures Less(ch(w).score, ch(c).score)
        {
          ScanIsMinimal(ch, x, init, i, k - 1, c);
          LessTrans(ch(w).score, prev.score, ch(c).score);
        }
      } else {
        w := ScanWinner(ch, x, init, i, k - 1);
      }
    } else if i > 0 {
      w := ScanWinner(ch, x, init, i - 1, |x[i - 1]|);
    } else {
      assert false;
    }
  }

  /** The table of the search: each candidate's choice. */
  function Pick(stdev: seq<real> -> real, x: Matrix, y: Matrix): Candidate -> Choice {
    c => if SplitReady(x, y) && IsCandidate(x, c) then ChoiceOf(stdev, x, y, c) else Initial(NRows(x))
  }

  /**
   * The running best of the nested loops of `split_tree` after columns 0 .. i-1 and rows 0 .. k-1 of
   * column i, starting from the defaults. A score of +infinity means the defaults were kept.
   */
  function BestAfter(stdev: seq<real> -> real, x: Matrix, y: Matrix, i: nat, k: nat): (b: Choice)
    requires SplitReady(x, y) && Position(x, i, k)
    ensures (b.score.Fin? && b.featVal.Fin?) || b == Initial(NRows(x))
    ensures Sound(x, b)
  {
    Scan(Pick(stdev, x, y), x, Initial(NRows(x)), i, k)
  }

  /** The outcome of `split_tree`: the running best once every column has been visited. */
  function Search(stdev: seq<real> -> real, x: Matrix, y: Matrix): (b: Choice)
    requires SplitReady(x, y)
    ensures (b.score.Fin? && b.featVal.Fin?) || b == Initial(NRows(x))
    ensures b.featIndex < |x| && InRange(b.left, NRows(x)) && InRange(b.right, NRows(x))
  {
    BestAfter(stdev, x, y, |x|, 0)
  }

  /** The search over every candidate, as a winner: the candidate whose choice the search returns. */
  lemma SearchWinner(stdev: seq<real> -> real, x: Matrix, y: Matrix) returns (w: Candidate)
    requires SplitReady(x, y) && Search(stdev, x, y).score.Fin?
    ensures IsCandidate(x, w) && Search(stdev, x, y) == ChoiceOf(stdev, x, y, w)
    ensures forall c :: IsCandidate(x, c) && Before(c, w) ==> Less(Loss(stdev, x, y, w), Loss(stdev, x, y, c))
  {
    var ch := Pick(stdev, x, y);
    w := ScanWinner(ch, x, Initial(NRows(x)), |x|, 0);
    forall c | IsCandidate(x, c) && Before(c, w)
      ensures Less(Loss(stdev, x, y, w), Loss(stdev, x, y, c))
    {
      assert ch(c) == ChoiceOf(stdev, x, y, c);
    }
  }

  /** `split_tree`'s score is no larger than the loss of any (column, value) pair of x. */
  lemma SearchIsMinimal(stdev: seq<real> -> real, x: Matrix, y: Matrix, c: Candidate)
    requires SplitReady(x, y) && IsCandidate(x, c)
    ensures !Less(Loss(stdev, x, y, c), Search(stdev, x, y).score)
  {
    var ch := Pick(stdev, x, y);
    ScanIsMinimal(ch, x, Initial(NRows(x)), |x|, 0, c);
    assert ch(c) == ChoiceOf(stdev, x, y, c);
  }

  /**
   * When every candidate has an infinite loss (or there is none), `split_tree` keeps its defaults:
   * column 0, threshold and score +infinity, every row left and none right.
   */
  lemma SearchWithoutFiniteLoss(stdev: seq<real> -> real, x: Matrix, y: Matrix)
    requires SplitReady(x, y)
    requires forall c :: IsCandidate(x, c) ==> Loss(stdev, x, y, c).Inf?
    ensures Search(stdev, x, y) == Initial(NRows(x))
  {
    if Search(stdev, x, y).score.Fin? {
      var w := SearchWinner(stdev, x, y);
      assert false;
    }
  }

  /** A score of +infinity means that no candidate had a finite loss. */
  lemma SearchInfiniteLosses(stdev: seq<real> -> real, x: Matrix, y: Matrix, c: Candidate)
    requires SplitReady(x, y) && Search(stdev, x, y).score.Inf? && IsCandidate(x, c)
    ensures Loss(stdev, x, y, c).Inf?
  {
    SearchIsMinimal(stdev, x, y, c);
  }

  /** A finite score comes with two non-empty sides, which are the split `make_split` makes on the chosen column and value. */
  lemma SearchFinite(stdev: seq<real> -> real, x: Matrix, y: Matrix)
    requires SplitReady(x, y) && Search(stdev, x, y).score.Fin?
    ensures var b := Search(stdev, x, y);
            |b.left| > 0 && |b.right| > 0 && (b.left, b.right) == SplitOf(x[b.featIndex], b.featVal)
  {
    var w := SearchWinner(stdev, x, y);
    WinnerSides(stdev, x, y, w);
  }

  /**
   * A finite score is the loss of a (column, value) pair of x that the search chose, and every pair
   * visited before it, column by column and row by row, had a strictly larger loss.
   */
  lemma SearchFirstWins(stdev: seq<real> -> real, x: Matrix, y: Matrix)
    requires SplitReady(x, y) && Search(stdev, x, y).score.Fin?
    ensures var b := Search(stdev, x, y);
            exists row :: IsCandidate(x, Candidate(b.featIndex, row)) &&
              b == ChoiceOf(stdev, x, y, Candidate(b.featIndex, row)) &&
              forall c :: IsCandidate(x, c) && Before(c, Candidate(b.featIndex, row)) ==>
                Less(b.score, Loss(stdev, x, y, c))
  {
    var w := SearchWinner(stdev, x, y);
    assert Candidate(Search(stdev, x, y).featIndex, w.row) == w;
  }

  /** A candidate with a finite loss splits the rows into two non-empty sides. */
  lemma WinnerSides(stdev: seq<real> -> real, x: Matrix, y: Matrix, c: Candidate)
    requires SplitReady(x, y) && IsCandidate(x, c) && Loss(stdev, x, y, c).Fin?
    ensures |ChoiceOf(stdev, x, y, c).left| > 0 && |ChoiceOf(stdev, x, y, c).right| > 0
  {
    var p := SplitOf(x[c.col], Fin(x[c.col][c.row]));
    assert |SelectRows(y, p.0)[0]| == |p.0|;
    assert |SelectRows(y, p.1)[0]| == |p.1|;
  }

  // ---------------------------------------------------------------------------
  // The tree as a value
  // ---------------------------------------------------------------------------

  /** The fields of a DecisionTree node, with its children as values. */
  datatype TreeValue = TreeValue(featIndex: nat, featVal: F64, score: F64, depth: nat, maxDepth: nat,
                                 left: ChildValue, right: ChildValue)

  /** A child: an interior node, or a leaf holding the fields of a linear regressor. */
  datatype ChildValue = Interior(node: TreeValue) | LeafModel(state: Linear.State)

  /** `DecisionTree::new(depth, max_depth)`: column 0, NaN threshold and score, two untrained leaves. */
  function NewTree(depth: nat, maxDepth: nat): TreeValue {
    TreeValue(0, NaN, NaN, depth, maxDepth, LeafModel(Linear.Initial()), LeafModel(Linear.Initial()))
  }

  /** A node that has reached its depth limit has two leaves. */
  predicate LeavesAtLimit(t: TreeValue) {
    t.depth >= t.maxDepth ==> t.left.LeafModel? && t.right.LeafModel?
  }

  /**
   * How many more levels `fit` may create below a node of depth d and limit m when the children
   * it creates get limit a: nothing once d has reached m.
   */
  function Budget(d: nat, m: nat, a: nat): nat {
    if d < m then (if m < a then a else m) - d else 0
  }

  /** The rows of a non-empty side of a split, taken from x and y, are data a node or a leaf can be fitted on. */
  lemma SideReady(x: Matrix, y: Matrix, rows: seq<nat>)
    requires SplitReady(x, y) && InRange(rows, NRows(x)) && |rows| > 0
    ensures SplitReady(SelectRows(x, rows), SelectRows(y, rows))
    ensures Linear.FitReady(SelectRows(x, rows), SelectRows(y, rows))
  {
    assert rows[0] < NRows(y);
    assert InRange(rows, NRows(y));
  }

  /**
   * One side of `fit` on a node of depth `depth` and limit `maxDepth` whose child on that side is c, given
   * the rows of that side: with no rows the child is kept; below the limit the side becomes a fresh node one
   * level deeper, limited by the argument, fitted on its rows; at the limit the side is a leaf and trains on them.
   */
  function FitSide(depth: nat, maxDepth: nat, c: ChildValue, rows: seq<nat>, stdev: seq<real> -> real,
                   x: Matrix, y: Matrix, arg: nat): (r: ChildValue)
    requires SplitReady(x, y) && InRange(rows, NRows(x))
    requires depth >= maxDepth ==> c.LeafModel?
    ensures depth >= maxDepth ==> r.LeafModel?
    decreases Budget(depth, maxDepth, arg), 0
  {
    if |rows| == 0 then c
    else
      SideReady(x, y, rows);
      var xs, ys := SelectRows(x, rows), SelectRows(y, rows);
      if depth < maxDepth then Interior(FitModel(NewTree(depth + 1, arg), stdev, xs, ys, arg))
      else LeafModel(Linear.FitState(c.state, xs, ys))
  }

  /**
   * `fit(x, y, max_depth)` on a node: search for the split, then fit each side on its rows.
   */
  function FitModel(t: TreeValue, stdev: seq<real> -> real, x: Matrix, y: Matrix, arg: nat): (r: TreeValue)
    requires SplitReady(x, y) && LeavesAtLimit(t)
    ensures r.depth == t.depth && r.maxDepth == t.maxDepth && LeavesAtLimit(r)
    decreases Budget(t.depth, t.maxDepth, arg), 1
  {
    var ch := Search(stdev, x, y);
    TreeValue(ch.featIndex, ch.featVal, ch.score, t.depth, t.maxDepth,
              FitSide(t.depth, t.maxDepth, t.left, ch.left, stdev, x, y, arg),
              FitSide(t.depth, t.maxDepth, t.right, ch.right, stdev, x, y, arg))
  }

  /**
   * Below its limit, `fit` turns each non-empty side into an interior node at depth+1 whose limit is the
   * argument; at or past its limit both sides stay leaves; an empty side keeps its old child untouched.
   */
  lemma FitGrowsBelowLimit(t: TreeValue, stdev: seq<real> -> real, x: Matrix, y: Matrix, arg: nat)
    requires SplitReady(x, y) && LeavesAtLimit(t)
    ensures var r, ch := FitModel(t, stdev, x, y, arg), Search(stdev, x, y);
            && r.featIndex == ch.featIndex && r.featVal == ch.featVal && r.score == ch.score
            && (|ch.left| == 0 ==> r.left == t.left)
            && (|ch.right| == 0 ==> r.right == t.right)
            && (t.depth < t.maxDepth && |ch.left| > 0 ==>
                  r.left.Interior? && r.left.node.depth == t.depth + 1 && r.left.node.maxDepth == arg)
            && (t.depth < t.maxDepth && |ch.right| > 0 ==>
                  r.right.Interior? && r.right.node.depth == t.depth + 1 && r.right.node.maxDepth == arg)
            && (t.depth >= t.maxDepth ==> r.left.LeafModel? && r.right.LeafModel?)
  {
  }

  /**
   * Each non-empty side is trained on its own rows of x and y, in the order the split lists them:
   * below the limit as a fresh node one level deeper limited by the argument, at the limit as the
   * side's leaf regressor.
   */
  lemma FitTrainsEachSide(t: TreeValue, stdev: seq<real> -> real, x: Matrix, y: Matrix, arg: nat)
    requires SplitReady(x, y) && LeavesAtLimit(t)
    ensures var r, ch := FitModel(t, stdev, x, y, arg), Search(stdev, x, y);
            && (|ch.left| > 0 ==>
                  SplitReady(SelectRows(x, ch.left), SelectRows(y, ch.left))
                  && Linear.FitReady(SelectRows(x, ch.left), SelectRows(y, ch.left))
                  && (t.depth < t.maxDepth ==>
                        r.left == Interior(FitModel(NewTree(t.depth + 1, arg), stdev,
                                                    SelectRows(x, ch.left), SelectRows(y, ch.left), arg)))
                  && (t.depth >= t.maxDepth ==>
                        r.left == LeafModel(Linear.FitState(t.left.state, SelectRows(x, ch.left), SelectRows(y, ch.left)))))
            && (|ch.right| > 0 ==>
                  SplitReady(SelectRows(x, ch.right), SelectRows(y, ch.right))
                  && Linear.FitReady(SelectRows(x, ch.right), SelectRows(y, ch.right))
                  && (t.depth < t.maxDepth ==>
                        r.right == Interior(FitModel(NewTree(t.depth + 1, arg), stdev,
                                                     SelectRows(x, ch.right), SelectRows(y, ch.right), arg)))
                  && (t.depth >= t.maxDepth ==>
                        r.right == LeafModel(Linear.FitState(t.right.state, SelectRows(x, ch.right), SelectRows(y, ch.right)))))
  {
    var ch := Search(stdev, x, y);
    if |ch.left| > 0 {
      SideReady(x, y, ch.left);
    }
    if |ch.right| > 0 {
      SideReady(x, y, ch.right);
    }
  }

  /** Every node of t is at depth b or less. */
  predicate DepthsAtMost(t: TreeValue, b: nat)
    decreases t, 1
  {
    t.depth <= b && ChildDepthsAtMost(t.left, b) && ChildDepthsAtMost(t.right, b)
  }

  predicate ChildDepthsAtMost(c: ChildValue, b: nat)
    decreases c, 0
  {
    c.Interior? ==> DepthsAtMost(c.node, b)
  }

  /** Fitting with limits no larger than b never creates a node deeper than b. */
  lemma {:induction false} FitWithinDepth(t: TreeValue, stdev: seq<real> -> real, x: Matrix, y: Matrix, arg: nat, b: nat)
    requires SplitReady(x, y) && LeavesAtLimit(t)
    requires DepthsAtMost(t, b) && t.maxDepth <= b && arg <= b
    ensures DepthsAtMost(FitModel(t, stdev, x, y, arg), b)
    decreases Budget(t.depth, t.maxDepth, arg), 1
  {
    var ch := Search(stdev, x, y);
    FitSideWithinDepth(t.depth, t.maxDepth, t.left, ch.left, stdev, x, y, arg, b);
    FitSideWithinDepth(t.depth, t.maxDepth, t.right, ch.right, stdev, x, y, arg, b);
  }

  lemma {:induction false} FitSideWithinDepth(depth: nat, maxDepth: nat, c: ChildValue, rows: seq<nat>, stdev: seq<real> -> real,
                                              x: Matrix, y: Matrix, arg: nat, b: nat)
    requires SplitReady(x, y) && InRange(rows, NRows(x))
    requires depth >= maxDepth ==> c.LeafModel?
    requires depth <= b && ChildDepthsAtMost(c, b) && maxDepth <= b && arg <= b
    ensures ChildDepthsAtMost(FitSide(depth, maxDepth, c, rows, stdev, x, y, arg), b)
    decreases Budget(depth, maxDepth, arg), 0
  {
    if |rows| > 0 && depth < maxDepth {
      SideReady(x, y, rows);
      FitWithinDepth(NewTree(depth + 1, arg), stdev, SelectRows(x, rows), SelectRows(y, rows), arg, b);
    }
  }

  /** A tree grown from a fresh node at depth d <= m with limit m has no node deeper than m. */
  lemma FitRespectsMaxDepth(stdev: seq<real> -> real, x: Matrix, y: Matrix, d: nat, m: nat)
    requires SplitReady(x, y) && d <= m
    ensures DepthsAtMost(FitModel(NewTree(d, m), stdev, x, y, m), m)
  {
    FitWithinDepth(NewTree(d, m), stdev, x, y, m, m);
  }

  // ---------------------------------------------------------------------------
  // Prediction
  // ---------------------------------------------------------------------------

  /** z with z[idx[k]] set to vals[k] for k = 0, 1, ..., |idx|-1 in turn. */
  function Scatter(z: seq<real>, idx: seq<nat>, vals: seq<real>): (r: seq<real>)
    requires |idx| <= |vals| && InRange(idx, |z|)
    ensures |r| == |z|
  {
    if |idx| == 0 then z
    else
      var n := |idx| - 1;
      Scatter(z, idx[..n], vals)[idx[n] := vals[n]]
  }

  /** With distinct indices, position idx[k] ends up holding vals[k] and every other position keeps its value. */
  lemma {:induction false} ScatterAt(z: seq<real>, idx: seq<nat>, vals: seq<real>)
    requires |idx| <= |vals| && InRange(idx, |z|)
    requires forall a, b :: 0 <= a < b < |idx| ==> idx[a] != idx[b]
    ensures forall k :: 0 <= k < |idx| ==> Scatter(z, idx, vals)[idx[k]] == vals[k]
    ensures forall j :: 0 <= j < |z| && j !in idx ==> Scatter(z, idx, vals)[j] == z[j]
  {
    if |idx| > 0 {
      var n := |idx| - 1;
      ScatterAt(z, idx[..n], vals);
      forall j | 0 <= j < |z| && j !in idx
        ensures Scatter(z, idx, vals)[j] == z[j]
      {
        assert j !in idx[..n];
      }
    }
  }

  /**
   * What `predict` needs at a node: x rectangular with the split column, and each child that receives
   * rows able to predict on them (a leaf needs trained ranges and weights for x's width).
   */
  predicate CanPredict(t: TreeValue, x: Matrix)
    decreases t, 1
  {
    IsMatrix(x) && |x| > 0 && t.featIndex < |x| &&
    var p := SplitOf(x[t.featIndex], t.featVal);
    if |p.0| > 0 && |p.1| > 0 then
      ChildCanPredict(t.left, SelectRows(x, p.0)) && ChildCanPredict(t.right, SelectRows(x, p.1))
    else if |p.0| > 0 then ChildCanPredict(t.left, x)
    else if |p.1| > 0 then ChildCanPredict(t.right, x)
    else true
  }

  predicate ChildCanPredict(c: ChildValue, x: Matrix)
    decreases c, 0
  {
    match c
    case Interior(n) => CanPredict(n, x)
    case LeafModel(s) => Linear.PredictReady(s.beta, s.norm, x, false)
  }

  /**
   * `predict` on a node: split x's rows on the node's column and threshold. When both sides have rows,
   * each child predicts its own rows and the results are written back to the rows' positions; when only
   * one side has rows, that child predicts the whole x; with no rows the result is empty.
   */
  function PredictValue(t: TreeValue, x: Matrix): (z: seq<real>)
    requires CanPredict(t, x)
    ensures |z| == NRows(x)
    decreases t, 1
  {
    var p := SplitOf(x[t.featIndex], t.featVal);
    var nrow := |x[0]|;
    if |p.0| > 0 && |p.1| > 0 then
      var lz := ChildPredict(t.left, SelectRows(x, p.0));
      var rz := ChildPredict(t.right, SelectRows(x, p.1));
      Scatter(Scatter(Linear.Zeros(nrow), p.0, lz), p.1, rz)
    else if |p.0| > 0 then ChildPredict(t.left, x)
    else if |p.1| > 0 then ChildPredict(t.right, x)
    else Linear.Zeros(nrow)
  }

  /** A child's prediction: an interior node's, or the leaf regressor's on raw features. */
  function ChildPredict(c: ChildValue, x: Matrix): (z: seq<real>)
    requires ChildCanPredict(c, x)
    ensures |z| == NRows(x)
    decreases c, 0
  {
    match c
    case Interior(n) => PredictValue(n, x)
    case LeafModel(s) => Linear.Outputs(s.beta, s.norm, x, false)
  }

  /**
   * `predict` returns one value per row of x. When both sides have rows, left row l[i] gets the left
   * child's i-th prediction and right row r[i] the right child's; when one side has every row, the result
   * is that child's prediction on the unsplit x.
   */
  lemma PredictRoutes(t: TreeValue, x: Matrix)
    requires CanPredict(t, x)
    ensures |PredictValue(t, x)| == NRows(x)
    ensures var p := SplitOf(x[t.featIndex], t.featVal);
            var z := PredictValue(t, x);
            && (|p.0| > 0 && |p.1| > 0 ==>
                  && (forall i :: 0 <= i < |p.0| ==> z[p.0[i]] == ChildPredict(t.left, SelectRows(x, p.0))[i])
                  && (forall i :: 0 <= i < |p.1| ==> z[p.1[i]] == ChildPredict(t.right, SelectRows(x, p.1))[i]))
            && (|p.1| == 0 && |p.0| > 0 ==> z == ChildPredict(t.left, x))
            && (|p.0| == 0 && |p.1| > 0 ==> z == ChildPredict(t.right, x))
  {
    var p := SplitOf(x[t.featIndex], t.featVal);
    if |p.0| > 0 && |p.1| > 0 {
      SplitFacts(x[t.featIndex], t.featVal);
      var lz := ChildPredict(t.left, SelectRows(x, p.0));
      var rz := ChildPredict(t.right, SelectRows(x, p.1));
      var z0 := Scatter(Linear.Zeros(|x[0]|), p.0, lz);
      ScatterAt(Linear.Zeros(|x[0]|), p.0, lz);
      ScatterAt(z0, p.1, rz);
      forall i | 0 <= i < |p.0|
        ensures Scatter(z0, p.1, rz)[p.0[i]] == lz[i]
      {
        assert p.0[i] in p.0;
      }
    }
  }

  /** The case of `predict` with rows on both sides, in terms of the two children's predictions. */
  lemma PredictBoth(t: TreeValue, x: Matrix, lz: seq<real>, rz: seq<real>)
    requires CanPredict(t, x)
    requires var p := SplitOf(x[t.featIndex], t.featVal);
             && |p.0| > 0 && |p.1| > 0
             && lz == ChildPredict(t.left, SelectRows(x, p.0)) && rz == ChildPredict(t.right, SelectRows(x, p.1))
    ensures var p := SplitOf(x[t.featIndex], t.featVal);
            PredictValue(t, x) == Scatter(Scatter(Linear.Zeros(NRows(x)), p.0, lz), p.1, rz)
  {
  }

  /** The cases of `predict` with rows on one side only: that child's prediction on the whole of x. */
  lemma PredictOneSide(t: TreeValue, x: Matrix, z: seq<real>)
    requires CanPredict(t, x)
    requires var p := SplitOf(x[t.featIndex], t.featVal);
             || (|p.0| > 0 && |p.1| == 0 && z == ChildPredict(t.left, x))
             || (|p.0| == 0 && |p.1| > 0 && z == ChildPredict(t.right, x))
    ensures PredictValue(t, x) == z
  {
  }

  // ---------------------------------------------------------------------------
  // A fitted tree can predict
  // ---------------------------------------------------------------------------

  /**
   * The shape `fit` leaves on data with n columns: a split column below n and a threshold that is
   * not NaN; the left child is trained, and so is the right one unless the threshold is +infinity
   * (then every row goes left and the right child is never used); a trained leaf has n+1 weights and ranges.
   */
  predicate Fitted(t: TreeValue, n: nat)
    decreases t, 1
  {
    && t.featIndex < n && !t.featVal.NaN?
    && ChildFitted(t.left, n)
    && (t.featVal.Fin? ==> ChildFitted(t.right, n))
  }

  predicate ChildFitted(c: ChildValue, n: nat)
    decreases c, 0
  {
    match c
    case Interior(m) => Fitted(m, n)
    case LeafModel(s) => |s.beta| == n + 1 && |s.norm| == n + 1
  }

  /** Fitting on data with at least one row leaves a fitted tree. */
  lemma {:induction false} FitMakesFitted(t: TreeValue, stdev: seq<real> -> real, x: Matrix, y: Matrix, arg: nat)
    requires SplitReady(x, y) && LeavesAtLimit(t) && NRows(x) > 0
    ensures Fitted(FitModel(t, stdev, x, y, arg), |x|)
    decreases Budget(t.depth, t.maxDepth, arg), 1
  {
    var ch := Search(stdev, x, y);
    if ch.score.Fin? {
      SearchFinite(stdev, x, y);
      FitSideFitted(t.depth, t.maxDepth, t.right, ch.right, stdev, x, y, arg);
    }
    FitSideFitted(t.depth, t.maxDepth, t.left, ch.left, stdev, x, y, arg);
  }

  lemma {:induction false} FitSideFitted(depth: nat, maxDepth: nat, c: ChildValue, rows: seq<nat>, stdev: seq<real> -> real,
                                         x: Matrix, y: Matrix, arg: nat)
    requires SplitReady(x, y) && InRange(rows, NRows(x)) && |rows| > 0
    requires depth >= maxDepth ==> c.LeafModel?
    ensures ChildFitted(FitSide(depth, maxDepth, c, rows, stdev, x, y, arg), |x|)
    decreases Budget(depth, maxDepth, arg), 0
  {
    SideReady(x, y, rows);
    if depth < maxDepth {
      FitMakesFitted(NewTree(depth + 1, arg), stdev, SelectRows(x, rows), SelectRows(y, rows), arg);
    }
  }

  /** A fitted tree can predict on any rectangular matrix with the same number of columns. */
  lemma {:induction false} FittedCanPredict(t: TreeValue, x: Matrix)
    requires IsMatrix(x) && |x| > 0 && Fitted(t, |x|)
    ensures CanPredict(t, x)
    decreases t, 1
  {
    var p := SplitOf(x[t.featIndex], t.featVal);
    SplitFacts(x[t.featIndex], t.featVal);
    if |p.0| > 0 && |p.1| > 0 {
      ChildFittedCanPredict(t.left, SelectRows(x, p.0));
      ChildFittedCanPredict(t.right, SelectRows(x, p.1));
    } else if |p.0| > 0 {
      ChildFittedCanPredict(t.left, x);
    } else if |p.1| > 0 {
      ChildFittedCanPredict(t.right, x);
    }
  }

  lemma {:induction false} ChildFittedCanPredict(c: ChildValue, x: Matrix)
    requires IsMatrix(x) && |x| > 0 && ChildFitted(c, |x|)
    ensures ChildCanPredict(c, x)
    decreases c, 0
  {
    if c.Interior? {
      FittedCanPredict(c.node, x);
    }
  }

  /** After `fit` on data with at least one row, `predict` is defined on any matrix as wide as the training features. */
  lemma FitThenPredict(t: TreeValue, stdev: seq<real> -> real, x: Matrix, y: Matrix, arg: nat, x': Matrix)
    requires SplitReady(x, y) && LeavesAtLimit(t) && NRows(x) > 0
    requires IsMatrix(x') && |x'| == |x|
    ensures CanPredict(FitModel(t, stdev, x, y, arg), x')
  {
    FitMakesFitted(t, stdev, x, y, arg);
    FittedCanPredict(FitModel(t, stdev, x, y, arg), x');
  }

  /** On a single row no threshold separates anything, so every loss is +infinity and the search keeps its defaults. */
  lemma OneRowSearchKeepsDefaults(stdev: seq<real> -> real, x: Matrix, y: Matrix)
    requires SplitReady(x, y) && NRows(x) == 1
    ensures Search(stdev, x, y) == Initial(1)
  {
    forall c | IsCandidate(x, c)
      ensures Loss(stdev, x, y, c).Inf?
    {
      SplitFacts(x[c.col], Fin(x[c.col][c.row]));
    }
    SearchWithoutFiniteLoss(stdev, x, y);
  }

  /**
   * A root at depth 0 with limit 0, fitted on a single row, keeps the search defaults (column 0, threshold
   * and score +infinity), trains its left leaf on that row and leaves its right leaf untrained.
   */
  lemma OneRowFit(stdev: seq<real> -> real, x: Matrix, y: Matrix)
    requires SplitReady(x, y) && NRows(x) == 1
    ensures Linear.FitReady(SelectRows(x, [0]), SelectRows(y, [0]))
    ensures FitModel(NewTree(0, 0), stdev, x, y, 0)
         == TreeValue(0, Inf, Inf, 0, 0,
                      LeafModel(Linear.FitState(Linear.Initial(), SelectRows(x, [0]), SelectRows(y, [0]))),
                      LeafModel(Linear.Initial()))
  {
    OneRowSearchKeepsDefaults(stdev, x, y);
    assert Indices(1) == [0];
    FitGrowsBelowLimit(NewTree(0, 0), stdev, x, y, 0);
    FitTrainsEachSide(NewTree(0, 0), stdev, x, y, 0);
  }

  /** A threshold of +infinity sends every row left, so the node predicts what its left child predicts on all of x. */
  lemma AllRowsLeft(t: TreeValue, x: Matrix)
    requires IsMatrix(x) && t.featIndex < |x| && NRows(x) > 0 && t.featVal.Inf? && ChildCanPredict(t.left, x)
    ensures CanPredict(t, x) && PredictValue(t, x) == ChildPredict(t.left, x)
  {
    SplitFacts(x[t.featIndex], t.featVal);
    assert |SplitOf(x[t.featIndex], t.featVal).0| == |x[t.featIndex]|;
  }

  /** On a single row, a node with threshold +infinity and a left leaf predicts what that leaf predicts there. */
  lemma OneRowLeftLeaf(t: TreeValue, x: Matrix, st: Linear.State, c: real)
    requires IsMatrix(x) && t.featIndex < |x| && NRows(x) == 1 && t.featVal.Inf? && t.left == LeafModel(st)
    requires Linear.PredictReady(st.beta, st.norm, x, false) && Linear.Outputs(st.beta, st.norm, x, false)[0] == c
    ensures CanPredict(t, x) && PredictValue(t, x) == [c]
  {
    AllRowsLeft(t, x);
    var z := Linear.Outputs(st.beta, st.norm, x, false);
    assert ChildPredict(t.left, x) == z;
    assert |z| == 1;
  }

  /** A leaf regressor trained on a single row predicts that row's target on it. */
  lemma OneRowLeafPredictsTarget(x: Matrix, y: Matrix)
    requires SplitReady(x, y) && NRows(x) == 1
    ensures var st := Linear.FitState(Linear.Initial(), SelectRows(x, [0]), SelectRows(y, [0]));
            Linear.PredictReady(st.beta, st.norm, x, false) && Linear.Outputs(st.beta, st.norm, x, false)[0] == y[0][0]
  {
    SideReady(x, y, [0]);
    var xs, ys := SelectRows(x, [0]), SelectRows(y, [0]);
    assert ys[0] == [y[0][0]];
    Linear.ConstantTargetPredicted(Linear.Initial(), xs, ys, x, 0, y[0][0]);
  }

  /**
   * A root at depth 0 with limit 0, fitted on a single row, predicts that row's target: every row goes
   * to the left leaf, whose recorded target range has zero width.
   */
  lemma OneRowTreePredictsTarget(stdev: seq<real> -> real, x: Matrix, y: Matrix)
    requires SplitReady(x, y) && NRows(x) == 1
    ensures var t := FitModel(NewTree(0, 0), stdev, x, y, 0);
            CanPredict(t, x) && PredictValue(t, x) == [y[0][0]]
  {
    OneRowFit(stdev, x, y);
    OneRowLeafPredictsTarget(x, y);
    var t := FitModel(NewTree(0, 0), stdev, x, y, 0);
    OneRowLeftLeaf(t, x, t.left.state, y[0][0]);
  }

  // ---------------------------------------------------------------------------
  // The tree as objects
  // ---------------------------------------------------------------------------

  /**
   * A model tree node (`DecisionTree`). Its children are owned values: an interior child is a TreeValue
   * and a leaf child the fields of a linear regressor. `stdev` stands for the deviation metric of the targets.
   */
  class DecisionTree {
    const stdev: seq<real> -> real
    const depth: nat
    const maxDepth: nat
    var left: ChildValue
    var right: ChildValue
    var featIndex: nat
    var featVal: F64
    var score: F64

    /** The node's fields as a value. */
    ghost function Model(): TreeValue
      reads this
    {
      TreeValue(featIndex, featVal, score, depth, maxDepth, left, right)
    }

    /** A node at its depth limit has two leaves. */
    ghost predicate Valid()
      reads this
    {
      LeavesAtLimit(Model())
    }

    /** `DecisionTree::new(depth, max_depth)`. */
    constructor(depth: nat, maxDepth: nat, stdev: seq<real> -> real)
      ensures Valid() && this.stdev == stdev
      ensures Model() == NewTree(depth, maxDepth)
    {
      this.stdev := stdev;
      this.depth := depth;
      this.maxDepth := maxDepth;
      left := LeafModel(Linear.Initial());
      right := LeafModel(Linear.Initial());
      featIndex := 0;
      featVal := NaN;
      score := NaN;
    }

    /**
     * `split_tree`: visit every (column, row value) pair in column-major order, keep the first pair with
     * the strictly smallest loss, record its column, value and loss in the node, and return its split.
     */
    method SplitTree(x: Matrix, y: Matrix) returns (l: seq<nat>, r: seq<nat>)
      requires SplitReady(x, y)
      modifies this`featIndex, this`featVal, this`score
      ensures Choice(score, featIndex, featVal, l, r) == Search(stdev, x, y)
    {
      featIndex := 0;
      featVal := Inf;
      var best := Inf;
      var ncol := |x|;
      var nrow := |x[0]|;
      l, r := Indices(nrow), [];
      for i := 0 to ncol
        invariant Choice(best, featIndex, featVal, l, r) == BestAfter(stdev, x, y, i, 0)
      {
        best, l, r := ScanColumn(x, y, i, best, l, r);
      }
      score := best;
    }

    /** The inner loop of `split_tree` over the values of column i, carrying the best score and split so far. */
    method ScanColumn(x: Matrix, y: Matrix, i: nat, score0: F64, left0: seq<nat>, right0: seq<nat>)
      returns (best: F64, l: seq<nat>, r: seq<nat>)
      requires SplitReady(x, y) && i < |x|
      requires Choice(score0, featIndex, featVal, left0, right0) == BestAfter(stdev, x, y, i, 0)
      modifies this`featIndex, this`featVal
      ensures Choice(best, featIndex, featVal, l, r) == BestAfter(stdev, x, y, i + 1, 0)
    {
      best, l, r := score0, left0, right0;
      for k := 0 to |x[i]|
        invariant Choice(best, featIndex, featVal, l, r) == BestAfter(stdev, x, y, i, k)
      {
        best, l, r := Consider(x, y, i, k, best, l, r);
      }
    }

    /**
     * One step of the inner loop: split on value k of column i, take the loss of the two sides of y, and
     * make that candidate the best so far when its loss is strictly below the best score.
     */
    method Consider(x: Matrix, y: Matrix, i: nat, k: nat, score0: F64, left0: seq<nat>, right0: seq<nat>)
      returns (best: F64, l: seq<nat>, r: seq<nat>)
      requires SplitReady(x, y) && i < |x| && k < |x[i]|
      requires Choice(score0, featIndex, featVal, left0, right0) == BestAfter(stdev, x, y, i, k)
      modifies this`featIndex, this`featVal
      ensures Choice(best, featIndex, featVal, l, r) == BestAfter(stdev, x, y, i, k + 1)
    {
      best, l, r := score0, left0, right0;
      var feat := x[i];
      var val := feat[k];
      var l', r' := MakeSplit(feat, Fin(val));
      var y1 := SelectRows(y, l');
      var y2 := SelectRows(y, r');
      var loss := MakeLoss(stdev, y1, y2);
      if Less(loss, best) {
        best := loss;
        l, r := l', r';
        featIndex := i;
        featVal := Fin(val);
      }
    }

    /**
     * `fit(x, y, max_depth)`: search for the split and record it, then fit each side on its rows: below the
     * depth limit a non-empty side is replaced by a fresh node one level deeper whose limit is the argument.
     */
    method Fit(x: Matrix, y: Matrix, arg: nat)
      requires Valid() && SplitReady(x, y)
      modifies this
      ensures Valid() && Model() == FitModel(old(Model()), stdev, x, y, arg)
    {
      var l, r := SplitTree(x, y);
      left := FitSide(depth, maxDepth, left, l, stdev, x, y, arg);
      right := FitSide(depth, maxDepth, right, r, stdev, x, y, arg);
    }

    /**
     * `predict`: split x's rows on the node's column and threshold; with rows on both sides each child
     * predicts its rows and the values are written back to the rows' positions, with rows on one side
     * that child predicts the whole x, and with no rows the result is nrow zeros.
     */
    method Predict(x: Matrix) returns (z: seq<real>)
      requires CanPredict(Model(), x)
      ensures z == PredictValue(Model(), x)
    {
      var feat := x[featIndex];
      var l, r := MakeSplit(feat, featVal);
      var nrow := |x[0]|;
      z := Linear.Zeros(nrow);
      if |l| > 0 && |r| > 0 {
        var lz := ChildPredict(left, SelectRows(x, l));
        var rz := ChildPredict(right, SelectRows(x, r));
        z := ScatterInto(z, l, lz);
        z := ScatterInto(z, r, rz);
        PredictBoth(Model(), x, lz, rz);
      } else if |l| > 0 {
        z := ChildPredict(left, x);
        PredictOneSide(Model(), x, z);
      } else if |r| > 0 {
        z := ChildPredict(right, x);
        PredictOneSide(Model(), x, z);
      }
    }
  }

  /** A write-back loop of `predict`: z[idx[i]] := vals[i] for each i in turn. */
  method ScatterInto(z0: seq<real>, idx: seq<nat>, vals: seq<real>) returns (z: seq<real>)
    requires |idx| <= |vals| && InRange(idx, |z0|)
    ensures z == Scatter(z0, idx, vals)
  {
    z := z0;
    for i := 0 to |idx|
      invariant z == Scatter(z0, idx[..i], vals)
    {
      assert idx[..i + 1][..i] == idx[..i];
      z := z[idx[i] := vals[i]];
    }
    assert idx[..|idx|] == idx;
  }
}
