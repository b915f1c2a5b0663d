/** `calculate_accumulated_price_changes`: split the Signal column into runs at
    its change points, record the close-to-close move of each closed run, and
    sum the recorded moves per label. */
module Accumulated {

  import opened Bars

  /** Row j starts a run: `Signal != Signal.shift()` (the first row always does). */
  predicate IsChange(rows: seq<Signaled>, j: int)
    requires 0 <= j < |rows|
  {
    j == 0 || rows[j].signal != rows[j - 1].signal
  }

  /** The change points among the first n rows, in increasing order. */
  function ChangePoints(rows: seq<Signaled>, n: nat): (idx: seq<nat>)
    requires n <= |rows|
    ensures forall k :: 0 <= k < |idx| ==> idx[k] < n
    ensures forall k, m :: 0 <= k < m < |idx| ==> idx[k] < idx[m]
    ensures forall j :: 0 <= j < n ==> (j in idx <==> IsChange(rows, j))
  {
    if n == 0 then []
    else ChangePoints(rows, n - 1) + (if IsChange(rows, n - 1) then [n - 1] else [])
  }

  /** The loop's two branches: a sell run followed by a buy run, or the reverse. */
  predicate Paired(rows: seq<Signaled>, a: nat, b: nat)
    requires a < |rows| && b < |rows|
  {
    || (rows[a].signal == Sell && rows[b].signal == Buy)
    || (rows[a].signal == Buy && rows[b].signal == Sell)
  }

  /** The move the loop records for the runs starting at a and at b:
      Close at the sell-run start minus Close at the buy-run start. */
  function PairDelta(rows: seq<Signaled>, a: nat, b: nat): real
    requires a < |rows| && b < |rows| && Paired(rows, a, b)
  {
    if rows[a].signal == Sell then rows[a].row.bar.close - rows[b].row.bar.close
    else rows[b].row.bar.close - rows[a].row.bar.close
  }

  /** The loop over consecutive change points from position i on: when the
      pair is sell/buy or buy/sell, AccumulatedPriceChange at the later change
      point is set to the pair's move; any other pair leaves the column alone. */
  function Mark(rows: seq<Signaled>, idx: seq<nat>, i: nat, col: seq<real>): (c: seq<real>)
    requires |col| == |rows|
    requires forall k :: 0 <= k < |idx| ==> idx[k] < |rows|
    ensures |c| == |rows|
    decreases |idx| - i
  {
    if i + 1 >= |idx| then col
    else
      var a := idx[i];
      var b := idx[i + 1];
      Mark(rows, idx, i + 1, if Paired(rows, a, b) then col[b := PairDelta(rows, a, b)] else col)
  }

  /** The AccumulatedPriceChange column after the loop, before the shift. */
  function Marked(rows: seq<Signaled>): (c: seq<real>)
    ensures |c| == |rows|
  {
    Mark(rows, ChangePoints(rows, |rows|), 0, seq(|rows|, _ => 0.0))
  }

  /** `shift(-1).fillna(0)`: each row receives the next row's value, the last row 0. */
  function Credits(rows: seq<Signaled>): (c: seq<real>)
    ensures |c| == |rows|
  {
    var m := Marked(rows);
    if |rows| == 0 then [] else m[1..] + [0.0]
  }

  /** Sum of the column over the rows labelled c. */
  function SumOn(rows: seq<Signaled>, col: seq<real>, c: Code): real
    requires |col| == |rows|
  {
    if |rows| == 0 then 0.0
    else SumOn(rows[..|rows| - 1], col[..|rows| - 1], c) + (if rows[|rows| - 1].signal == c then col[|rows| - 1] else 0.0)
  }

  /** `calculate_accumulated_price_changes(df, princ=True)`: (all_buy, all_sell). */
  function AccumulatedPriceChanges(rows: seq<Signaled>): (r: (real, real))
    ensures r == (SumOn(rows, RunCredits(rows), Buy), SumOn(rows, RunCredits(rows), Sell))
  {
    CreditsMatchRuns(rows);
    (SumOn(rows, Credits(rows), Buy), SumOn(rows, Credits(rows), Sell))
  }

  /** `calculate_accumulated_price_changes(df)`: all_buy + all_sell. */
  function AccumulatedScore(rows: seq<Signaled>): (r: real)
    ensures r == SumOn(rows, RunCredits(rows), Buy) + SumOn(rows, RunCredits(rows), Sell)
  {
    var p := AccumulatedPriceChanges(rows);
    p.0 + p.1
  }

  // ---------------------------------------------------------------------------
  // Reference: the same credits described run by run.

  /** The first row of the run that contains row j. */
  function RunStart(rows: seq<Signaled>, j: nat): (s: nat)
    requires j < |rows|
    ensures s <= j && IsChange(rows, s)
    ensures forall m :: s < m <= j ==> !IsChange(rows, m)
    ensures rows[s].signal == rows[j].signal
  {
    if IsChange(rows, j) then j else RunStart(rows, j - 1)
  }

  /** Row j is credited iff it is the last row of a run that is followed by a
      run of the opposite label; the credit is Close at the sell-run start minus
      Close at the buy-run start. The final run and pairs involving the
      combined code get nothing. */
  function RunCredit(rows: seq<Signaled>, j: nat): real
    requires j < |rows|
  {
    if j + 1 < |rows| && IsChange(rows, j + 1) && Paired(rows, RunStart(rows, j), j + 1)
    then PairDelta(rows, RunStart(rows, j), j + 1)
    else 0.0
  }

  function RunCredits(rows: seq<Signaled>): (c: seq<real>)
    ensures |c| == |rows|
  {
    seq(|rows|, j requires 0 <= j < |rows| => RunCredit(rows, j))
  }

  /** What the loop leaves in the column: the later change point of each pair
      holds the pair's move, every other cell keeps its value. */
  lemma {:induction false} MarkSpec(rows: seq<Signaled>, idx: seq<nat>, i: nat, col: seq<real>)
    requires |col| == |rows|
    requires forall k :: 0 <= k < |idx| ==> idx[k] < |rows|
    requires forall k, m :: 0 <= k < m < |idx| ==> idx[k] < idx[m]
    ensures forall j :: 0 <= j < |rows| && (forall k :: i < k < |idx| ==> idx[k] != j) ==>
      Mark(rows, idx, i, col)[j] == col[j]
    ensures forall k :: i <= k && k + 1 < |idx| ==>
      Mark(rows, idx, i, col)[idx[k + 1]] ==
        (if Paired(rows, idx[k], idx[k + 1]) then PairDelta(rows, idx[k], idx[k + 1]) else col[idx[k + 1]])
    decreases |idx| - i
  {
    if i + 1 < |idx| {
      var a := idx[i];
      var b := idx[i + 1];
      var col' := if Paired(rows, a, b) then col[b := PairDelta(rows, a, b)] else col;
      MarkSpec(rows, idx, i + 1, col');
      forall k | i + 1 < k < |idx|
        ensures col'[idx[k]] == col[idx[k]]
      {
        assert idx[i + 1] < idx[k];
      }
      assert forall k :: i + 1 < k < |idx| ==> idx[k] != b by {
        forall k | i + 1 < k < |idx|
          ensures idx[k] != b
        {
          assert idx[i + 1] < idx[k];
        }
      }
    }
  }

  /** The first change point is row 0. */
  lemma FirstChangePoint(rows: seq<Signaled>)
    requires |rows| > 0
    ensures |ChangePoints(rows, |rows|)| > 0 && ChangePoints(rows, |rows|)[0] == 0
  {
    var idx := ChangePoints(rows, |rows|);
    assert 0 in idx;
    var m :| 0 <= m < |idx| && idx[m] == 0;
    IncreasingOrder(idx, 0, m);
  }

  /** In a strictly increasing list, positions and values are ordered alike. */
  lemma IncreasingOrder(idx: seq<nat>, a: nat, b: nat)
    requires forall k, m :: 0 <= k < m < |idx| ==> idx[k] < idx[m]
    requires a < |idx| && b < |idx|
    ensures a <= b <==> idx[a] <= idx[b]
  {
  }

  /** For a change point j > 0, the change point before it in the list is the
      start of the run that row j - 1 belongs to. */
  lemma PreviousChangePoint(rows: seq<Signaled>, m: nat)
    requires 0 < m < |ChangePoints(rows, |rows|)|
    ensures ChangePoints(rows, |rows|)[m] > 0
    ensures ChangePoints(rows, |rows|)[m - 1] == RunStart(rows, ChangePoints(rows, |rows|)[m] - 1)
  {
    var idx := ChangePoints(rows, |rows|);
    IncreasingOrder(idx, m - 1, m);
    var j := idx[m];
    var s := RunStart(rows, j - 1);
    var p := idx[m - 1];
    // p is a change point before j, so the run of j - 1 cannot start before it
    assert IsChange(rows, p);
    // s is a change point before j, so it sits in the list before position m
    assert s in idx;
    var q :| 0 <= q < |idx| && idx[q] == s;
    IncreasingOrder(idx, q, m);
    IncreasingOrder(idx, q, m - 1);
  }

  /** The column after the loop, cell by cell: a change point j > 0 holds the
      move of the pair (start of the run before it, j) when that pair is
      sell/buy or buy/sell; every other cell is 0. */
  lemma MarkedAt(rows: seq<Signaled>, j: nat)
    requires j < |rows|
    ensures Marked(rows)[j] ==
      (if 0 < j && IsChange(rows, j) && Paired(rows, RunStart(rows, j - 1), j)
       then PairDelta(rows, RunStart(rows, j - 1), j) else 0.0)
  {
    var idx := ChangePoints(rows, |rows|);
    var zero := seq(|rows|, _ => 0.0);
    MarkSpec(rows, idx, 0, zero);
    FirstChangePoint(rows);
    if 0 < j && IsChange(rows, j) {
      assert j in idx;
      var m :| 0 <= m < |idx| && idx[m] == j;
      PreviousChangePoint(rows, m);
      var k := m - 1;
      assert 0 <= k && k + 1 < |idx| && idx[k + 1] == j;
    } else {
      assert forall k :: 0 < k < |idx| ==> idx[k] != j;
    }
  }

  /** The literal column (change points, loop, shift) equals the run-by-run
      reference credits, row for row. */
  lemma CreditsMatchRuns(rows: seq<Signaled>)
    ensures Credits(rows) == RunCredits(rows)
  {
    var m := Marked(rows);
    var c := Credits(rows);
    forall j | 0 <= j < |rows|
      ensures c[j] == RunCredits(rows)[j]
    {
      if j + 1 < |rows| {
        MarkedAt(rows, j + 1);
        assert c[j] == m[j + 1];
      } else {
        assert c[j] == 0.0;
      }
    }
  }

  /** A frame whose label never changes has one run, which is never closed: it scores 0. */
  lemma SingleRunScoresZero(rows: seq<Signaled>)
    requires forall j :: 0 < j < |rows| ==> rows[j].signal == rows[0].signal
    ensures AccumulatedPriceChanges(rows) == (0.0, 0.0)
  {
    assert forall j :: 0 <= j < |rows| ==> RunCredits(rows)[j] == 0.0 by {
      forall j | 0 <= j < |rows|
        ensures RunCredit(rows, j) == 0.0
      {
        if j + 1 < |rows| {
          assert !IsChange(rows, j + 1);
        }
      }
    }
    ZeroColumnSumsZero(rows, RunCredits(rows), Buy);
    ZeroColumnSumsZero(rows, RunCredits(rows), Sell);
  }

  lemma {:induction false} ZeroColumnSumsZero(rows: seq<Signaled>, col: seq<real>, c: Code)
    requires |col| == |rows| && forall j :: 0 <= j < |col| ==> col[j] == 0.0
    ensures SumOn(rows, col, c) == 0.0
  {
    if |rows| > 0 {
      ZeroColumnSumsZero(rows[..|rows| - 1], col[..|rows| - 1], c);
    }
  }
}
