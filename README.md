# Model trees for ensemble learning, in Dafny

This project models the learners of `ex1` in rust_ensemble_learning. It covers four Rust files.

- **`U.rs`** holds the shared helpers. A `Matrix` is a sequence of columns (`m[jcol][irow]`). The helpers are:
  - `mean`;
  - the `MinMax` record and `calcMinMax`;
  - `CSV::clonePartial`.
- **`zeror.rs`** is the zero-rule baseline. It predicts the training mean of every target column, whatever the features.
- **`linear.rs`** is a linear regressor. It:
  - records the min/max range of the target and of each feature (`fitnorm`);
  - rescales the data into those ranges (`normalize`);
  - trains its weights by per-sample gradient descent from the zero vector, for 20 epochs at learning rate 0.01 (`fit`);
  - predicts by evaluating the affine form and mapping the result back to the target's scale (`predict`).
- **`dtree.rs`** is a model tree. Each node does three things:
  - It picks the (column, value) split of its rows with the smallest weighted deviation of the targets (`split_tree`, using `make_split` and `make_loss`).
  - It fits each side of the split on that side's rows, either as a deeper node or as a linear leaf (`fit`).
  - It routes prediction rows through the split and writes each child's predictions back into the rows' positions (`predict`).

## How the model is built

Doubles are modelled as `F64 = Fin(real) | Inf | NaN`, so the code's sentinels stay visible:
- the search starts from `f64::INFINITY`;
- `new` stores `f64::NAN`;
- an empty mean is `0.0 / 0.0`.

Comparison `Less` follows IEEE `<`. Finite arithmetic is exact (`real`).

Each piece of Rust takes the matching form in Dafny:
- **Stateful objects become classes.** `Linear`, `ZeroRule` and `DecisionTree` are Dafny classes whose methods update their fields. Each method is proved against a specification function: `FitState`, `Outputs`, `Means`, `Constant`, `Search`, `FitModel` and `PredictValue`.
- **Loops stay loops**, with invariants that tie them to those functions:
  - `calcMinMax`, `clonePartial`;
  - the two loops of `split_tree`;
  - the epoch, row and weight loops of `fit`;
  - the write-back loops of `predict`;
  - the loops of `ZeroRule`.
- **Pure helpers stay functions.** `gini`, `deviation` and `make_loss` are functions.

The properties are stated about the specification functions:
- the loss ordering that `split_tree` guarantees (a minimum, keeping the first of equal losses);
- the depth bound of a fitted tree;
- `fit` then `predict` being well-defined;
- where each prediction row goes;
- the range facts of the normalisation;
- the gradient schedule of training;
- the means predicted by the zero rule;
- the degenerate cases: a zero-width target range, and a tree trained on a single row.

The tree's deviation metric `U::stdev` is not part of this model. The tree carries an arbitrary function `stdev: seq<real> -> real` in its place. `U::MatSelectRow` is not part of this model either. `U.SelectRows` gives its meaning: the rows listed, in that order, column by column.

## Model

| member | source | states |
|---|---|---|
| U.Mean | ex1/src/U.rs:148-154 | the mean is NaN exactly when the vector is empty; otherwise it is finite and mean × length equals the left-fold sum |
| U.MeanOfConstant | ex1/src/U.rs:148-154 | the mean of a non-empty constant vector is that constant |
| U.MeanWithinMinMax | ex1/src/U.rs:148-154 | the mean of a non-empty vector is finite and lies between its `calcMinMax` minimum and maximum |
| U.MinMaxOf | ex1/src/U.rs:159-190 | min ≤ max, every element lies between them, and both are elements of the vector |
| U.CalcMinMax | ex1/src/U.rs:171-190 | the single pass from `v[0]` (strict `<` / `>` updates) returns exactly `MinMaxOf(v)` |
| U.SelectAllRows | ex1/src/dtree.rs:209-210 | selecting every row in order gives the matrix back |
| U.SelectRows | ex1/src/dtree.rs:173-174 | the selection keeps every column, stays rectangular, and has one row per listed index |
| U.SelectRowsCompose | ex1/src/dtree.rs:208-219 | selecting rows of a selection, as a child does with its parent's side, is one selection of the composed row list |
| U.ClonePartial | ex1/src/U.rs:123-138 | the clone holds columns and names `startCol..endCol-1` in order, keeps `nrows`, and its `ncols` is `endCol - startCol` truncated to 32 bits |
| ZeroR.ZeroRule.constructor | ex1/src/zeror.rs:19-23 | a new rule stores no means |
| ZeroR.ZeroRule.Fit | ex1/src/zeror.rs:31-42 | after `fit`, the stored values are exactly the means of y's columns in order; earlier contents and x play no part |
| ZeroR.ZeroRule.Predict | ex1/src/zeror.rs:54-66 | the result has one column per stored mean, each repeating that mean once per row of `x[0]` |
| ZeroR.ConstantShape | ex1/src/zeror.rs:54-66 | every predicted column has as many entries as x has rows, each equal to its stored value |
| ZeroR.PredictsTrainingMean | ex1/src/zeror.rs:31-66 | after fitting on y, every entry of predicted column i is the mean of y's column i |
| ZeroR.ConstantTargetPredicted | ex1/src/zeror.rs:39-41 | a constant non-empty target column is predicted exactly |
| ZeroR.PredictionWithinTargetRange | ex1/src/zeror.rs:39-41 | each prediction lies between the minimum and maximum of its training column |
| ZeroR.EmptyTargetPredictsNaN | ex1/src/U.rs:148-154 | an empty target column yields NaN predictions |
| Linear.Range | ex1/src/linear.rs:84-90 | the range is `max - min`, replaced by 1.0 when that is zero; it is never zero and is positive for an ordered MinMax |
| Linear.ScaleIntoUnit | ex1/src/linear.rs:99-117 | with a proper range, values inside it scale into [0, 1], min to 0 and max to 1 |
| Linear.UnscaleScale | ex1/src/linear.rs:204-219 | denormalising a normalised value gives it back, or gives the minimum on a zero-width range |
| Linear.TrainingDataScaledToUnit | ex1/src/linear.rs:129-134 | data scaled by the ranges recorded from itself lies in [0, 1], targets and features alike |
| Linear.AffineSameRow | ex1/src/linear.rs:150-160 | the affine form depends only on the row's values, so predicting a one-row copy of row irow gives the prediction at irow |
| Linear.OutputsOnRawFeatures | ex1/src/linear.rs:189-225 | `predict(x, false)` is the denormalised `predict(normalize(x), true)` at every row |
| Linear.PredictionRecoversTarget | ex1/src/linear.rs:189-225 | weights that fit a normalised target exactly predict the raw target; on a zero-width target range they predict its minimum |
| Linear.ZeroRangePredictsMin | ex1/src/linear.rs:204-219 | when the recorded target range has zero width, every raw-feature prediction is the target minimum, whatever the weights |
| Linear.Update | ex1/src/linear.rs:157-170 | one gradient step moves the intercept by -(prediction − q)·lr and weight j+1 by that amount times feature j |
| Linear.ScheduleLength | ex1/src/linear.rs:147-148 | training visits epochs × nrows rows |
| Linear.ReplayAppend | ex1/src/linear.rs:147-172 | replaying two row lists in a row is replaying their concatenation |
| Linear.EpochIsReplay | ex1/src/linear.rs:148-171 | one epoch is the gradient steps on rows 0..nrows-1 in order |
| Linear.TrainIsSchedule | ex1/src/linear.rs:145-172 | training from zero weights is exactly the steps on rows 0..nrows-1, repeated once per epoch |
| Linear.FitState | ex1/src/linear.rs:129-176 | `fit` keeps epochs and lr, leaves one weight and one range per feature column plus one, and the result can predict on x |
| Linear.FittedCanPredict | ex1/src/linear.rs:129-225 | a fitted regressor can predict on any rectangular matrix as wide as its training features |
| Linear.ConstantTargetPredicted | ex1/src/linear.rs:129-225 | a regressor fitted on a constant target column predicts that constant on every row it is given |
| Linear.Linear.constructor | ex1/src/linear.rs:30-37 | a new regressor has 20 epochs, learning rate 0.01, and no weights or ranges |
| Linear.Linear.FitNorm | ex1/src/linear.rs:55-68 | the ranges become `calcMinMax(y[0])`, then `calcMinMax` of each feature column in order; weights untouched |
| Linear.Linear.Normalize | ex1/src/linear.rs:78-121 | feature j is scaled by `norm[j+1]` and the first target column by `norm[0]`; an absent target gives one empty column |
| Linear.Linear.Predict | ex1/src/linear.rs:189-225 | one value per row: `beta[0] + Σ nx[i][irow]·beta[i+1]`, denormalised with the raw target range when x is raw |
| Linear.Linear.Fit | ex1/src/linear.rs:129-176 | the new state is `FitState` of the old one: ranges of the data, and weights reached from zero by the epoch schedule |
| Linear.Linear.RunEpochs | ex1/src/linear.rs:145-172 | the weights become the zero vector trained for `epochs` passes |
| Linear.Linear.RunEpoch | ex1/src/linear.rs:148-171 | the weights become one pass of gradient steps over rows 0..nrows-1 |
| Linear.Linear.GradientStep | ex1/src/linear.rs:150-170 | the weights move by the gradient step of row irow, its prediction taken through `predict(p, true)` |
| Linear.Linear.ApplyStep | ex1/src/linear.rs:166-170 | the intercept drops by err and weight j+1 by `nx[j][irow] * err`, the rest untouched |
| DTree.Gini | ex1/src/dtree.rs:30-40 | the impurity is NaN exactly when there are no rows, and otherwise finite and at most 1 |
| DTree.DeviationOfFirstColumn | ex1/src/dtree.rs:43-45 | the deviation reads only the first target column: two targets sharing it have the same deviation |
| DTree.GiniOfPureNode | ex1/src/dtree.rs:30-40 | one-hot rows all in one category have impurity 0 |
| DTree.SplitFacts | ex1/src/dtree.rs:106-119 | the left side is the ascending list of rows with `feat[i] < val` and the right side the others; a NaN threshold sends all right, +∞ all left |
| DTree.MakeSplit | ex1/src/dtree.rs:106-119 | the loop's two index lists are exactly `SplitOf(feat, val)` |
| DTree.MakeLoss | ex1/src/dtree.rs:128-148 | the loss is +∞ exactly when a side has no rows, and never NaN |
| DTree.LossIsWeightedMean | ex1/src/dtree.rs:136-148 | the side weights are positive and sum to 1, so a finite loss lies between the two side deviations; each side is weighted by its own row count: `n1·(loss − dev(y1)) + n2·(loss − dev(y2)) = 0` |
| DTree.ScanIsMinimal | ex1/src/dtree.rs:169-189 | no candidate visited so far scores strictly below the running best |
| DTree.ScanWinner | ex1/src/dtree.rs:181-188 | a finite running best is the entry of a visited candidate, and every candidate visited before it scored strictly higher |
| DTree.Search | ex1/src/dtree.rs:151-193 | the outcome either keeps the defaults or has a finite score and threshold; its column exists and its sides hold rows of x |
| DTree.SearchIsMinimal | ex1/src/dtree.rs:169-190 | the recorded score is no larger than the loss of any (column, value) pair of x |
| DTree.SearchFirstWins | ex1/src/dtree.rs:181-188 | a finite score is the loss of a pair of x whose column and value were recorded; every pair visited earlier had a strictly larger loss |
| DTree.SearchWithoutFiniteLoss | ex1/src/dtree.rs:152-162 | when no pair has a finite loss, the defaults stay: column 0, threshold and score +∞, every row left |
| DTree.SearchInfiniteLosses | ex1/src/dtree.rs:181-190 | a score of +∞ means every pair's loss was +∞ |
| DTree.SearchFinite | ex1/src/dtree.rs:172-192 | a finite score comes with two non-empty sides, which are `make_split` of the chosen column and value |
| DTree.WinnerSides | ex1/src/dtree.rs:128-134 | a pair with a finite loss splits the rows into two non-empty sides |
| DTree.SideReady | ex1/src/dtree.rs:208-219 | the selected rows of a non-empty side are valid training data for a node and for a leaf |
| DTree.FitModel | ex1/src/dtree.rs:195-227 | fitting keeps depth and limit, and a node at its limit still has two leaves |
| DTree.FitGrowsBelowLimit | ex1/src/dtree.rs:196-224 | below its limit, each non-empty side becomes a node at depth+1 whose limit is the `max_depth` argument; at the limit both sides stay leaves; an empty side keeps its child |
| DTree.FitTrainsEachSide | ex1/src/dtree.rs:208-224 | each non-empty side is trained on its own rows of x and y: below the limit as a fresh node at depth+1 with the argument's limit, at the limit as that side's leaf regressor |
| DTree.FitWithinDepth | ex1/src/dtree.rs:195-227 | fitting with limits no larger than b never creates a node deeper than b |
| DTree.FitRespectsMaxDepth | ex1/src/dtree.rs:195-227 | a tree grown from a fresh node at depth d ≤ m with limit m has no node deeper than m |
| DTree.FitMakesFitted | ex1/src/dtree.rs:195-227 | fitting on data with a row leaves a recorded column, a non-NaN threshold and trained children where rows can reach them |
| DTree.FittedCanPredict | ex1/src/dtree.rs:229-269 | a fitted tree can predict on any rectangular matrix as wide as its training data |
| DTree.FitThenPredict | ex1/src/dtree.rs:195-269 | after `fit` on data with a row, `predict` is defined on any matrix as wide as the training features |
| DTree.OneRowSearchKeepsDefaults | ex1/src/dtree.rs:151-193 | on a single row every loss is +∞, so the search keeps its defaults |
| DTree.OneRowFit | ex1/src/dtree.rs:195-227 | a depth-0, limit-0 root fitted on one row keeps column 0 and threshold +∞, trains its left leaf on that row and leaves the right leaf untrained |
| DTree.OneRowLeafPredictsTarget | ex1/src/linear.rs:189-225 | a leaf trained on a single row predicts that row's target |
| DTree.AllRowsLeft | ex1/src/dtree.rs:256-260 | a threshold of +∞ sends every row of any x left, so the node returns its left child's prediction (node or leaf) on the whole of x |
| DTree.OneRowLeftLeaf | ex1/src/dtree.rs:256-260 | on a one-row x, a node with threshold +∞ and a left leaf returns that leaf's prediction on the row |
| DTree.OneRowTreePredictsTarget | ex1/src/dtree.rs:195-269 | a depth-0, limit-0 tree trained on one row predicts that row's target |
| DTree.ScatterAt | ex1/src/dtree.rs:250-255 | with distinct indices, position `idx[k]` gets `vals[k]` and every other position keeps its value |
| DTree.PredictRoutes | ex1/src/dtree.rs:229-269 | one value per row; with rows on both sides left row `l[i]` gets the left child's i-th prediction and right row `r[i]` the right's; with one side only, that child predicts the unsplit x |
| DTree.ScatterInto | ex1/src/dtree.rs:250-255 | the write-back loop computes `Scatter` |
| DTree.DecisionTree.constructor | ex1/src/dtree.rs:65-79 | a new node has column 0, NaN threshold and score, the given depth and limit, and two untrained leaves |
| DTree.DecisionTree.SplitTree | ex1/src/dtree.rs:151-193 | the recorded column, value and score and the returned split are those of `Search` |
| DTree.DecisionTree.ScanColumn | ex1/src/dtree.rs:170-188 | one pass over column i advances the running best from column i to column i+1 |
| DTree.DecisionTree.Consider | ex1/src/dtree.rs:172-187 | one candidate advances the running best by one position: it replaces the best exactly when its loss is strictly smaller |
| DTree.DecisionTree.Fit | ex1/src/dtree.rs:195-227 | the node's new value is `FitModel` of its old value, and a node at its limit keeps two leaves |
| DTree.DecisionTree.Predict | ex1/src/dtree.rs:229-269 | the result is `PredictValue` of the node, one value per row of x |

## Left out

- Reading, parsing and printing are not modelled. This covers `CSV::new`, `CSV::read`, `CSV::print`, `printMat`, `Linear::print`, `ZeroRule::print`, `DecisionTree::print`/`printSub`, the `test_*` and `test1` methods of `DecisionTree`, the `Model` enum used only by `test1`, and `main.rs`. None of them computes anything the learners use.
- Floating-point rounding is not modelled: finite doubles are reals. A finite overflow to ±∞ is not modelled either. The infinities and NaN the code produces on purpose are modelled.
- `U::stdev` is not part of this model. The metric of the tree is an arbitrary function of the first target column, so no property depends on how the deviation is computed.
- `U::MatSelectRow` is not part of this model. `U.SelectRows` stands for it, with the meaning its callers rely on.
- `DTree.DecisionTree`: the children are held as values (an interior node's fields, or a leaf regressor's fields), not as separate heap objects. In the source each child is uniquely owned through a `Box`, so there is no aliasing for this to lose. Refitting a child replaces its value rather than updating it in place.
- DTree.DecisionTree also drops the `metric` field, a function value that is always `deviation`. `gini` is modelled on its own, because the source defines it but never uses it for the tree.
- `depth` and `max_depth` are `u32` in the source. The model uses unbounded naturals, so `depth + 1` cannot wrap.
- `Linear` does not model `epochs` as `u32` or `lr` as a double beyond their values 20 and 0.01. No property states convergence of the gradient descent, since the source claims none.
- Linear.Linear.Fit: the model requires a rectangular x with at least one column and one row, and a target column at least as long. The source reads `x[0]` and `y[0]` unguarded and panics otherwise.
- U.CalcMinMax: the model requires a non-empty vector. The source indexes `v[0]` and panics on an empty one.
- DTree.DecisionTree.SplitTree: the model requires a rectangular x with at least one column, and a rectangular y with at least as many rows. The source reads `x[0]` unguarded and selects y's rows by x's row indices.
- DTree.Gini: the model requires at least one column, which the source reads unguarded, and columns of equal length.
- ZeroR.ZeroRule.Predict: the model requires x to have a column, because the source reads `x[0].len()`.
- Linear.Linear.Predict: the model requires a rectangular x with a column, a recorded target range, the feature ranges when x is raw, and a weight per column once x has a row. The source reads `x[0]`, `norm[0]` and `norm[jcol+1]` unguarded and panics on an untrained regressor.
- Linear.Linear.Normalize: the model requires a recorded range for every feature column that has a row, and a target range when y has a row. The source indexes `norm` unguarded.
- DTree.MakeLoss: the model requires both sides to have a column. The source reads `y1[0]` and `y2[0]` unguarded.
- U.ClonePartial: the model requires both column lists to reach `endCol`, since the source indexes them unguarded. It also requires `startCol <= endCol`: otherwise the source's `usize` subtraction `endCol - startCol` underflows, which panics in a debug build.
- DTree.DecisionTree.Predict: the model requires `CanPredict`: a rectangular x holding the split column, and children able to predict on the rows they receive. The source panics on an out-of-range column or an untrained leaf that receives rows.
