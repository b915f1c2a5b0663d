/** `optimize_parameters`: score every (window, bias) pair of the grid, window
    outer and bias inner, and keep the first pair that strictly beats the best
    score so far, starting from a best score of 0. */
module Search {

  import opened Wrappers
  import opened Bars
  import Levels
  import Signals
  import Percentage
  import Accumulated
  import Sums

  /** The two scoring functions the search is used with, in their default
      (single number) form. */
  datatype Scorer = PercentageScorer | AccumulatedScorer

  /** The accumulated score is always a number; the percentage score is NaN
      exactly when a side has a zero denominator, and otherwise a percentage
      for non-negative price changes. */
  function Score(s: Scorer, rows: seq<Signaled>): (r: Option<real>)
    ensures s.AccumulatedScorer? ==>
      r == Some(Accumulated.SumOn(rows, Accumulated.RunCredits(rows), Buy)
                + Accumulated.SumOn(rows, Accumulated.RunCredits(rows), Sell))
    ensures s.PercentageScorer? ==>
      (r.None? <==> Sums.Sum(Percentage.Tallied(rows).buyAll) == 0.0 || Sums.Sum(Percentage.Tallied(rows).sellAll) == 0.0)
    ensures s.PercentageScorer? && r.Some? && Percentage.PriceChangesNonNegative(rows) ==> 0.0 <= r.value <= 100.0
  {
    match s
    case PercentageScorer => Percentage.PercentageScore(rows)
    case AccumulatedScorer => Some(Accumulated.AccumulatedScore(rows))
  }

  /** `calculate(analysis(define_level(data, window_size, b)))`. */
  function Objective(bars: seq<Bar>, p: Signals.Policy, s: Scorer, window: Levels.Num, bias: Levels.Num): (r: Option<real>)
    requires Levels.CeilAbs(window) >= 1
    ensures r == Score(s, Signals.Classify(p, Levels.DefineLevel(bars, Levels.CeilAbs(window), Levels.CeilAbs(bias))))
    ensures Levels.Valid(window, bias) ==> r == Score(s, Signals.Classify(p, Levels.DefineLevel(bars, window.i, bias.i)))
  {
    Levels.CoerceIsPerArgument(window, bias);
    Score(s, Signals.Classify(p, Levels.DefineLevelArgs(bars, window, bias)))
  }

  /** `current_score > best_score`; a NaN score compares false. */
  predicate Beats(x: Option<real>, t: real) {
    x.Some? && x.value > t
  }

  /** A score that reaches t. */
  predicate Reaches(x: Option<real>, t: real) {
    x.Some? && x.value >= t
  }

  /** Cell (a, b) comes before cell (i, j) in window-outer, bias-inner order. */
  predicate Before(a: int, b: int, i: int, j: int) {
    a < i || (a == i && b < j)
  }

  predicate Rectangular(m: seq<seq<Option<real>>>, width: nat) {
    forall i :: 0 <= i < |m| ==> |m[i]| == width
  }

  /** Cell (i, j) scores above 0, no cell scores more, and every earlier cell
      scores less. */
  predicate FirstMax(m: seq<seq<Option<real>>>, width: nat, i: nat, j: nat)
    requires Rectangular(m, width) && i < |m| && j < width
  {
    && Beats(m[i][j], 0.0)
    && (forall a, b :: 0 <= a < |m| && 0 <= b < width ==> !Beats(m[a][b], m[i][j].value))
    && (forall a, b :: 0 <= a < |m| && 0 <= b < width && Before(a, b, i, j) ==> !Reaches(m[a][b], m[i][j].value))
  }

  /** The loop state after the cells before (i, j): no visited cell beats the
      best score; with no choice yet the best score is 0; otherwise the chosen
      cell was visited, holds the best score, which is positive, and no cell
      visited before it reaches that score. */
  predicate Scanned(m: seq<seq<Option<real>>>, width: nat, i: int, j: int, best: real, at: Option<(nat, nat)>)
    requires Rectangular(m, width)
  {
    && (forall a, b :: 0 <= a < |m| && 0 <= b < width && Before(a, b, i, j) ==> !Beats(m[a][b], best))
    && (at.None? ==> best == 0.0)
    && (at.Some? ==>
          && at.value.0 < |m| && at.value.1 < width && Before(at.value.0, at.value.1, i, j)
          && m[at.value.0][at.value.1] == Some(best) && best > 0.0
          && forall a, b :: 0 <= a < |m| && 0 <= b < width && Before(a, b, at.value.0, at.value.1) ==>
               !Reaches(m[a][b], best))
  }

  /** The nested loop over a score grid: the position of the first maximum,
      or `None` when no score is above 0. */
  method Argmax(m: seq<seq<Option<real>>>, width: nat) returns (at: Option<(nat, nat)>)
    requires Rectangular(m, width)
    ensures at.None? <==> forall a, b :: 0 <= a < |m| && 0 <= b < width ==> !Beats(m[a][b], 0.0)
    ensures at.Some? ==> at.value.0 < |m| && at.value.1 < width && FirstMax(m, width, at.value.0, at.value.1)
  {
    var best := 0.0;
    at := None;
    var i := 0;
    while i < |m|
      invariant 0 <= i <= |m|
      invariant Scanned(m, width, i, 0, best, at)
    {
      var j := 0;
      while j < width
        invariant 0 <= j <= width
        invariant Scanned(m, width, i, j, best, at)
      {
        if m[i][j].Some? && m[i][j].value > best {
          best := m[i][j].value;
          at := Some((i, j));
        }
        j := j + 1;
      }
      i := i + 1;
    }
  }

  /** The objective on every grid cell, row i for window i, column j for bias j. */
  function Scores(bars: seq<Bar>, p: Signals.Policy, s: Scorer, ws: seq<Levels.Num>, bs: seq<Levels.Num>): (m: seq<seq<Option<real>>>)
    requires forall i :: 0 <= i < |ws| ==> Levels.CeilAbs(ws[i]) >= 1
    ensures |m| == |ws| && Rectangular(m, |bs|)
    ensures forall i, j :: 0 <= i < |ws| && 0 <= j < |bs| ==> m[i][j] == Objective(bars, p, s, ws[i], bs[j])
  {
    seq(|ws|, i requires 0 <= i < |ws| => seq(|bs|, j requires 0 <= j < |bs| => Objective(bars, p, s, ws[i], bs[j])))
  }

  /** Grid cell (i, j) is the one `optimize_parameters` keeps: its pipeline
      score is above 0, no pair scores more, and every pair visited before it
      scores less (or is NaN). */
  predicate FirstBest(bars: seq<Bar>, p: Signals.Policy, s: Scorer, ws: seq<Levels.Num>, bs: seq<Levels.Num>, i: nat, j: nat)
    requires forall i :: 0 <= i < |ws| ==> Levels.CeilAbs(ws[i]) >= 1
    requires i < |ws| && j < |bs|
  {
    var best := Objective(bars, p, s, ws[i], bs[j]);
    && Beats(best, 0.0)
    && (forall a, b :: 0 <= a < |ws| && 0 <= b < |bs| ==> !Beats(Objective(bars, p, s, ws[a], bs[b]), best.value))
    && (forall a, b :: 0 <= a < |ws| && 0 <= b < |bs| && Before(a, b, i, j) ==>
          !Reaches(Objective(bars, p, s, ws[a], bs[b]), best.value))
  }

  /** `optimize_parameters`: `None` when no pair scores above 0, otherwise the
      first pair in window-outer, bias-inner order that attains the maximum. */
  method OptimizeParameters(bars: seq<Bar>, p: Signals.Policy, s: Scorer, ws: seq<Levels.Num>, bs: seq<Levels.Num>)
    returns (best: Option<(Levels.Num, Levels.Num)>)
    requires forall i :: 0 <= i < |ws| ==> Levels.CeilAbs(ws[i]) >= 1
    ensures best.None? <==>
      forall i, j :: 0 <= i < |ws| && 0 <= j < |bs| ==> !Beats(Objective(bars, p, s, ws[i], bs[j]), 0.0)
    ensures best.Some? ==> exists i, j ::
      0 <= i < |ws| && 0 <= j < |bs| && best.value == (ws[i], bs[j]) && FirstBest(bars, p, s, ws, bs, i, j)
  {
    var m := Scores(bars, p, s, ws, bs);
    var at := Argmax(m, |bs|);
    if at.Some? {
      var (i, j) := at.value;
      best := Some((ws[i], bs[j]));
      // the first maximum of the matrix is the first best pair of the grid
      var top: Option<real> := m[i][j];
      forall a, b | 0 <= a < |ws| && 0 <= b < |bs|
        ensures !Beats(Objective(bars, p, s, ws[a], bs[b]), top.value)
        ensures Before(a, b, i, j) ==> !Reaches(Objective(bars, p, s, ws[a], bs[b]), top.value)
      {
        assert m[a][b] == Objective(bars, p, s, ws[a], bs[b]);
      }
      assert FirstBest(bars, p, s, ws, bs, i, j);
    } else {
      best := None;
    }
  }
}
