# Support/resistance signal pipeline and feature-selection bookkeeping

This project models the core of a trading-research toolkit in Dafny.

- **Levels.** `define_level` adds two level columns to a frame of OHLC candles: a rolling maximum of High and a rolling minimum of Low. Both are shifted back by `bias` rows, and incomplete rows are dropped.
- **Classifiers.** Two classifiers turn the levels into a buy/sell Signal column that is carried forward between triggers:
  - `breakdown_analysis` fires on breakouts through a level;
  - `rebound_analysis` fires on rebounds from a level.
- **Scores.** Two functions score a signalled frame:
  - `calculate_percentage` gives the share of price change earned by directionally correct candles, per side;
  - `calculate_accumulated_price_changes` gives the close-to-close move between opposite runs.
- **Search.** `optimize_parameters` runs the whole pipeline on every (window, bias) pair of a grid. It keeps the first pair that attains the best positive score.
- **Mutation.** The mutation rule of the genetic search is included, with its random draws passed in as parameters.
- **`GradientRFE`.** From the gradient-based feature eliminator, two pieces are modelled:
  - the sliding-window sample builder (`prepare_data`);
  - the best-result bookkeeping (`__best_result`).

Each literal model of a pandas pipeline is proved equal to an independent, row-by-row reference definition:
- rolling columns, shift and dropna;
- replace, ffill and dropna;
- change points, the marking loop and `shift(-1)`.

The properties are then stated against that reference.

Modules:

| module | file | contents |
|---|---|---|
| `Wrappers`, `Bars`, `Sums` | `bars.dfy` | `Option` (NaN as `None`), candles, levelled and signalled rows, sums of reals |
| `Levels` | `levels.dfy` | parameter coercion, rolling extremes, `define_level` |
| `Signals` | `signals.dfy` | triggers, forward fill, the two classifiers |
| `Percentage` | `percentage.dfy` | `calculate_percentage` |
| `Accumulated` | `accumulated.dfy` | `calculate_accumulated_price_changes` |
| `Search` | `search.dfy` | `optimize_parameters` |
| `Genetic` | `genetic.dfy` | `GeneticAlgorithm.mutate` |
| `FeatureSelection` | `rfe.dfy` | `GradientRFE.prepare_data`, `GradientRFE.__best_result` |

Behaviour worth noting, including where the docstrings and the code disagree:

- **A row where both triggers fire.** Each classifier encodes its two triggers as 1 and 2 and adds them. A sum of 3 (both fired) is never relabelled, so it stays in the Signal column as the number 3. The model keeps it as `Code.Both`:
  - the loop of `calculate_percentage` and the masks of `calculate_accumulated_price_changes` skip such a row, but when it is the last row its PriceChange still feeds the tail steps of `calculate_percentage` (`Percentage.Finish`);
  - it does start a new run for the change-point logic.
  - `Signals.ReboundBothReachable` shows that the rebound classifier can emit it.
  - `Signals.BreakoutExclusive` shows that the breakout classifier cannot, on candles with Low <= High.
- **Level windows.** The levels at output row k cover input rows k .. k + window - 1. Output row k is input row k + window + bias - 1. With `bias = 0` a candle lies inside its own levels, so neither classifier ever fires (`Signals.ZeroBiasSilent`).
- **The `breakdown_analysis` docstring example.** It produces an empty frame: no row meets either breakout trigger (`Signals.BreakdownDocExampleEmpty`).
- **The `calculate_percentage` docstring example.** It evaluates to 50, not the 37.5 that is stated:
  - every candle closes above its open, so the buy side scores 100 and the sell side 0;
  - `Percentage.DocExampleIsFifty` states this result.
- **PriceChange.** It is produced outside the modelled code, so it is an input field of each candle.

## Model

| member | source | states |
|---|---|---|
| Levels.CeilAbs | function/preprocess_function.py:327-328 | `ceil(abs(x))` of an int is its absolute value; of a float it is the least integer not below its absolute value |
| Levels.Coerce | function/preprocess_function.py:326-328 | a positive int window with a non-negative int bias passes through unchanged |
| Levels.CoerceIsPerArgument | function/preprocess_function.py:326-328 | replacing both arguments when either is unacceptable gives the same as normalising each argument on its own |
| Levels.CoercedWindowPositive | function/preprocess_function.py:326-328 | the normalised window is at least 1 exactly when the argument is not zero |
| Levels.MaxHigh | function/preprocess_function.py:334 | the window maximum of High bounds every High in the window and is attained by one of them |
| Levels.MinLow | function/preprocess_function.py:335 | the window minimum of Low bounds every Low in the window and is attained by one of them |
| Levels.RollingMaxColumn | function/preprocess_function.py:334 | the rolling maximum is NaN exactly on the first window - 1 rows; every later cell i bounds the High of rows i - window + 1 .. i and is attained by one of them |
| Levels.RollingMinColumn | function/preprocess_function.py:335 | the rolling minimum is NaN exactly on the first window - 1 rows; every later cell i is below the Low of rows i - window + 1 .. i and is attained by one of them |
| Levels.Shift | function/preprocess_function.py:334-335 | the shifted column is bias NaN cells followed by the column with its last bias cells cut off (all NaN when bias is at least the length) |
| Levels.ShiftedColumns | function/preprocess_function.py:334-335 | after the shift, both level columns are present exactly from row window + bias - 1 on, holding the extremes of the window ending bias rows earlier |
| Levels.DropLeading | function/preprocess_function.py:338-341 | dropping rows with NaN levels, when they are exactly the leading t rows, keeps every later row in order |
| Levels.DropNa | function/preprocess_function.py:338-341 | keeps, in order, the rows with both level cells present; characterised by Levels.DropLeading and Levels.KeptRows |
| Levels.KeptRows | function/preprocess_function.py:338-341 | the rows kept by dropna are input rows window + bias - 1 onward, each with the extremes of its window |
| Levels.DefineLevel | function/preprocess_function.py:324-343 | output length is max(0, n - window - bias + 1); row k is input row k + window + bias - 1; its RollingMax/RollingMin bound every High/Low of input rows k .. k + window - 1 and are attained there |
| Levels.DefineLevelArgs | function/preprocess_function.py:312-343 | the call computes the levels for the argument-wise `ceil(abs(.))` of window and bias, which for a positive int window and non-negative int bias are the arguments themselves |
| Levels.LevelsOrdered | function/preprocess_function.py:334-335 | on candles with Low <= High, every output row has RollingMin <= RollingMax |
| Levels.ZeroBiasContainsRow | function/preprocess_function.py:334-335 | with bias 0 a row's own High and Low lie within its levels |
| Signals.BreakoutBuy | function/preprocess_function.py:363-366 | breakout buy condition: RollingMax below both High and Close; used by Signals.Trigger |
| Signals.BreakoutSell | function/preprocess_function.py:368-371 | breakout sell condition: RollingMin above both Low and Close; used by Signals.Trigger |
| Signals.ReboundSell | function/preprocess_function.py:396-399 | rebound sell condition: High above RollingMax with Close back below it; used by Signals.Trigger |
| Signals.ReboundBuy | function/preprocess_function.py:407-410 | rebound buy condition: Low below RollingMin with Close back above it; used by Signals.Trigger |
| Signals.Trigger | function/preprocess_function.py:363-420 | the summed code is buy iff only the buy condition holds, sell iff only the sell condition holds, the combined code iff both hold, and nothing iff neither holds, for both classifiers with their swapped 1/2 encodings |
| Signals.FirstTrigger | function/preprocess_function.py:377-380 | the rows removed by dropna after ffill are exactly those before the first triggered row |
| Signals.LastTriggerTail | function/preprocess_function.py:377 | the forward-fill state carries over when the first row is dropped |
| Signals.Fill | function/preprocess_function.py:377-380 | replace-ffill-dropna in one pass; characterised by Signals.FillKnown and Signals.FillUnknown |
| Signals.FillKnown | function/preprocess_function.py:377 | from a known code, forward fill keeps every row and gives each the code of the nearest trigger at or before it |
| Signals.FillUnknown | function/preprocess_function.py:377-380 | from an unknown code, fill-then-dropna keeps exactly the rows from the first trigger on, each with the nearest trigger's code |
| Signals.Classify | function/preprocess_function.py:363-432 | both classifiers return the input suffix from the first triggered row, row for row, each carrying the code of the nearest triggered row at or before it |
| Signals.ClassifyCodes | function/preprocess_function.py:377 | a triggered row keeps its own code; an untriggered row takes the code of the last triggered row before it, with no trigger in between |
| Signals.NearestTrigger | function/preprocess_function.py:377 | the forward-filled code is that of a triggered row with no trigger between it and the current row |
| Signals.NeverBoth | function/preprocess_function.py:373-377 | every forward-filled code is some row's own summed code, so if no row fires both triggers no output row carries the combined code |
| Signals.BreakoutExclusive | function/preprocess_function.py:363-375 | on levelled well-formed candles the breakout buy and sell conditions never hold together, so no signalled row carries the combined code |
| Signals.ZeroBiasSilent | function/preprocess_function.py:363-410 | with bias 0 neither classifier's conditions can hold, and both return an empty frame |
| Signals.ReboundBothReachable | function/preprocess_function.py:396-420 | a candle piercing both levels and closing between them gets the combined code 3 from the rebound classifier, and it survives into the output |
| Signals.BreakdownDocExampleEmpty | function/preprocess_function.py:359-383 | the frame of the breakout docstring yields an empty result |
| Percentage.Step | function/preprocess_function.py:462-480 | a sell (buy) row always enters its own denominator; it enters its own numerator exactly when Close < Open (Close > Open); it crosses over into both lists of the other side exactly when it is correct and the other side's counter is positive, and the other side's lists change in no other way; a correct row adds one to its own counter and resets the other side's, an incorrect one leaves both counters alone; a combined-code row changes nothing; on each side the numerator only ever grows together with the denominator |
| Percentage.Finish | function/preprocess_function.py:482-488 | a side whose counter is positive receives the last row's price change in both its lists; a side whose counter is 0 is unchanged |
| Percentage.Loop | function/preprocess_function.py:462-480 | the loop only appends: each list it starts from is a prefix of the list it ends with |
| Percentage.LoopCollects | function/preprocess_function.py:462-480 | the loop adds every labelled row's price change to its side's denominator and every correct row's price change to its side's numerator |
| Percentage.TalliedCollectsAll | function/preprocess_function.py:462-488 | after the whole pass each denominator contains the price change of every row of its side |
| Percentage.TalliedCollectsHits | function/preprocess_function.py:462-488 | after the whole pass each numerator contains the price change of every correct row of its side |
| Percentage.FollowsKeepsDominated | function/preprocess_function.py:462-488 | each list step keeps every numerator value matched in the denominator |
| Percentage.FollowsKeepsBounded | function/preprocess_function.py:462-488 | with non-negative values each list step keeps 0 <= numerator sum <= denominator sum |
| Percentage.LoopSound | function/preprocess_function.py:462-480 | the loop preserves both list invariants on both sides |
| Percentage.Tallied | function/preprocess_function.py:462-488 | the loop followed by the tail steps on the last row; characterised by Percentage.TalliedSound, Percentage.TalliedCollectsAll and Percentage.TalliedCollectsHits |
| Percentage.TalliedSound | function/preprocess_function.py:462-488 | after the pass each numerator is a sub-multiset of its denominator, and with non-negative price changes its sum lies between 0 and the denominator sum |
| Percentage.Ratio | function/preprocess_function.py:490-491 | the ratio is undefined exactly for a zero denominator sum, and lies in [0, 100] when the numerator sum is bounded by it |
| Percentage.Percentages | function/preprocess_function.py:490-495 | each side's percentage is NaN exactly when its denominator sums to 0, and lies in [0, 100] for non-negative price changes |
| Percentage.PercentageScore | function/preprocess_function.py:490-497 | the score is defined iff both sides are, lies between the two side percentages, and lies in [0, 100] for non-negative price changes |
| Percentage.ZeroDenominatorIsZeroOverZero | function/preprocess_function.py:490-491 | with non-negative price changes a zero denominator comes with a zero numerator, so only 0/0 occurs |
| Percentage.DocFrameTally | function/preprocess_function.py:462-488 | the four lists the pass collects on the docstring frame |
| Percentage.DocExampleSides | function/preprocess_function.py:446-450 | on the docstring frame the buy side scores 100 and the sell side 0 |
| Percentage.DocExampleIsFifty | function/preprocess_function.py:446-450 | the docstring frame scores 50, not the 37.5 stated |
| Accumulated.ChangePoints | function/preprocess_function.py:515-517 | the change-point list is strictly increasing and holds exactly the rows whose Signal differs from the row before (and row 0) |
| Accumulated.RunStart | function/preprocess_function.py:515-517 | the start of a row's run is a change point with no change point after it up to the row, and carries the row's Signal |
| Accumulated.IsChange | function/preprocess_function.py:515 | `Signal != Signal.shift()`, row 0 always; the rows it selects are exactly the members of Accumulated.ChangePoints |
| Accumulated.PairDelta | function/preprocess_function.py:524-545 | the move of a sell/buy or buy/sell pair of runs: Close at the sell-run start minus Close at the buy-run start, in either order; where it is written is stated by Accumulated.MarkSpec |
| Accumulated.Marked | function/preprocess_function.py:519-546 | the zero column after the marking loop, the length of the frame; characterised cell by cell by Accumulated.MarkedAt |
| Accumulated.Mark | function/preprocess_function.py:522-546 | the marking loop over consecutive change points; keeps the column length, and its effect is characterised by Accumulated.MarkSpec |
| Accumulated.Credits | function/preprocess_function.py:548 | `shift(-1).fillna(0)` of the marked column; equal to the run-by-run reference by Accumulated.CreditsMatchRuns |
| Accumulated.SumOn | function/preprocess_function.py:549-550 | the masked sum over the rows with one label; used by Accumulated.AccumulatedPriceChanges, and 0 on a zero column by Accumulated.ZeroColumnSumsZero |
| Accumulated.MarkSpec | function/preprocess_function.py:522-546 | the loop writes, at each later change point of a sell/buy or buy/sell pair, Close at the sell-run start minus Close at the buy-run start, and leaves every other cell unchanged |
| Accumulated.FirstChangePoint | function/preprocess_function.py:515-517 | the first change point is row 0 |
| Accumulated.PreviousChangePoint | function/preprocess_function.py:515-517 | the change point before a change point j is the start of the run containing row j - 1 |
| Accumulated.MarkedAt | function/preprocess_function.py:519-546 | after the loop, a cell holds the move of the pair ending at it when it starts a run following an opposite run, and 0 otherwise |
| Accumulated.CreditsMatchRuns | function/preprocess_function.py:515-548 | the shifted column equals the reference: the last row of each run followed by an opposite run holds the pair's move, every other row 0 |
| Accumulated.AccumulatedPriceChanges | function/preprocess_function.py:548-553 | (all_buy, all_sell) are the sums, over buy and over sell rows, of the run-by-run reference credits |
| Accumulated.AccumulatedScore | function/preprocess_function.py:548-555 | the score is the sum of the buy and sell totals of the reference credits |
| Accumulated.SingleRunScoresZero | function/preprocess_function.py:515-555 | a frame whose Signal never changes scores (0, 0) |
| Accumulated.ZeroColumnSumsZero | function/preprocess_function.py:549-550 | a masked sum over an all-zero column is 0 |
| Search.Argmax | function/preprocess_function.py:576-589 | the grid scan returns nothing iff no score is above 0, and otherwise the first cell in window-outer, bias-inner order whose score is maximal, NaN scores never winning |
| Search.Score | function/preprocess_function.py:583 | the accumulated score is the sum of the buy and sell reference credits and never NaN; the percentage score is NaN exactly when a side's denominator sums to 0, and a percentage for non-negative price changes |
| Search.Objective | function/preprocess_function.py:581-583 | the score of the classifier output on the levels for the argument-wise normalised window and bias, the arguments themselves when they are acceptable |
| Search.Beats | function/preprocess_function.py:585 | a score beats the best so far only if it is a number strictly above it; NaN never does |
| Search.OptimizeParameters | function/preprocess_function.py:559-589 | the result is None iff no pair's pipeline score is above 0, and otherwise the (window, bias) pair whose score is above 0, is not beaten by any pair, and is not reached by any pair visited before it |
| Genetic.Mutate | function/preprocess_function.py:704-707 | either the bias is kept and the window becomes a whole number in (abs(w) - 6, abs(w) + 5], or the window is kept and the bias is drawn from the bias list |
| Genetic.MutateKeepsInRange | function/preprocess_function.py:704-707 | an individual with a whole non-negative window and a bias from the list keeps both properties after mutation |
| FeatureSelection.DropColumn | function/NN.py:14 | dropping the target column shifts every later cell one place left |
| FeatureSelection.DropThenInsert | function/NN.py:14 | re-inserting the dropped target value restores the original row |
| FeatureSelection.InsertThenDrop | function/NN.py:14 | dropping an inserted column restores the row it was inserted into |
| FeatureSelection.PrepareData | function/NN.py:10-21 | fails only for a missing target column once the loop body runs; otherwise yields max(0, n - w) samples, sample i being rows i .. i + w - 1 without the target column and label i the target of row i + w |
| FeatureSelection.WindowsOverlap | function/NN.py:13-15 | consecutive samples share all rows but one |
| FeatureSelection.LabelCompletesNextWindow | function/NN.py:13-16 | label i together with the last row of sample i + 1 reconstructs input row i + w |
| FeatureSelection.Kept | function/NN.py:42 | the kept indices are ascending, below the feature count, and are exactly those not removed |
| FeatureSelection.KeptCount | function/NN.py:42-44 | the kept count plus the number of removed indices below the feature count is the feature count |
| FeatureSelection.BestResult | function/NN.py:39-48 | a strictly smaller error replaces the record: the kept list is the ascending `Kept(count, removed)`, its length is the recorded feature count, and the error is recorded with it; otherwise nothing changes; the best error never rises above the old best or the new error, and a consistent tracker stays consistent |
| FeatureSelection.FirstMin | function/NN.py:40 | the chosen round has the smallest error and every earlier round a strictly larger one |
| FeatureSelection.Run | function/NN.py:63-116 | the tracker after one `__best_result` call per elimination round: its error is at most every round's error, and finite exactly when there was a round |
| FeatureSelection.RunKeepsFirstMinimum | function/NN.py:39-48 | after any sequence of rounds the tracker holds exactly what the first round with the smallest error recorded, and the initial state when there were none |
| FeatureSelection.RunConsistent | function/NN.py:39-48 | the best error is finite exactly when a record exists, and then agrees with the record and its feature count |

## Left out

- `Preprocessing_stock_data` and the computation of the PriceChange column: they lie outside this core. PriceChange is an input field of each candle.
- `GeneticAlgorithm`, apart from `mutate`: the population set-up, crossover, selection, evaluation and the DEAP toolbox depend on a library and on randomness. They are left out.
- Genetic.Mutate: the random draws (`random.random()`, `random.randint(-5, 5)`, `random.choice`) are parameters. The model assumes their documented ranges and a draw that is a member of the bias list.
- `GradientRFE.fit` and `model_LSTM`: network construction, training, gradient computation and `train_test_split` are foreign numerical code. Each round's test error enters `FeatureSelection.Run` as a parameter.
- MetaTrader 5 access and the visualisation module: these are I/O.
- Floating point: prices and errors are exact reals.
  - NaN and the infinities from a division by zero are `None`.
  - NaN compares false, which `Search.Beats` reflects.
  - Rounding is not modelled.
- Search.OptimizeParameters: a percentage score of +inf wins the comparison `current_score > best_score` in `optimize_parameters`, but is `None` here and never wins. It arises when a side's denominator sums to 0 while its numerator does not. By Percentage.ZeroDenominatorIsZeroOverZero, that needs a negative PriceChange.
- Frames with NaN cells outside the level columns are not modelled, because candles are NaN-free reals. `dropna` in `define_level` and in both classifiers drops a row with a NaN in any column. A NaN PriceChange on the first row, or an extra indicator column with leading NaNs, removes more rows than Levels.DefineLevel and Signals.Classify state.
- Levels.DefineLevelArgs: a window that normalises to 0 (an argument of 0) is excluded by its precondition. pandas' behaviour for `rolling(window=0)` is not modelled.
- FeatureSelection.PrepareData: a negative `window_size` is not modelled, because the window is a natural number.
- FeatureSelection.PrepareData: the label lookup `data.loc[i + window_size]` is modelled as positional. This matches the frame's default RangeIndex.
- Column names are modelled as positions.
- In-place mutation and aliasing are not modelled:
  - the input frame gains columns;
  - `best_parameters` keeps a live reference to the removed-index list, which keeps growing in later rounds.
  - The model records each round's list as a snapshot.
- FeatureSelection.BestResult: the unused arguments `num_features_to_keep` and `mse_before` are dropped. A NaN error is not modelled.
- The `return_count` and `princ` flags are modelled as two separate functions each:
  - `Percentages` and `PercentageScore`;
  - `AccumulatedPriceChanges` and `AccumulatedScore`.
- `optimize_parameters` treats `analysis` and `calculate` as arbitrary callables. The model fixes them to the two classifiers (`Signals.Policy`) and the two scores in their default single-number form (`Search.Scorer`).
- The progress-bar wrapper `t(...)` around the window list has no effect on the result and is omitted.
- Search.OptimizeParameters: every window in the grid must normalise to at least 1. This is the same restriction as for `DefineLevelArgs`.
