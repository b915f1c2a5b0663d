/** `GradientRFE`: the sliding-window sample builder and the best-result
    bookkeeping of the recursive feature elimination. The network, its
    training and the gradients are left out; the test error of each round
    arrives as a parameter. */
module FeatureSelection {

  import opened Wrappers

  // ---------------------------------------------------------------------------
  // prepare_data

  /** A data frame as rows of equal width; column c is the target column. */
  predicate Table(data: seq<seq<real>>, width: nat) {
    forall i :: 0 <= i < |data| ==> |data[i]| == width
  }

  /** `drop(y_column, axis=1)` on one row. */
  function DropColumn(row: seq<real>, c: nat): (r: seq<real>)
    requires c < |row|
    ensures |r| == |row| - 1
    ensures forall k :: 0 <= k < |r| ==> r[k] == (if k < c then row[k] else row[k + 1])
  {
    row[..c] + row[c + 1..]
  }

  /** Put a value back in as column c. */
  function InsertColumn(row: seq<real>, c: nat, v: real): (r: seq<real>)
    requires c <= |row|
    ensures |r| == |row| + 1 && r[c] == v
    ensures forall k :: 0 <= k < |row| ==> r[if k < c then k else k + 1] == row[k]
  {
    row[..c] + [v] + row[c..]
  }

  /** Dropping the target column loses nothing but the target itself. */
  lemma DropThenInsert(row: seq<real>, c: nat)
    requires c < |row|
    ensures InsertColumn(DropColumn(row, c), c, row[c]) == row
  {
  }

  lemma InsertThenDrop(row: seq<real>, c: nat, v: real)
    requires c <= |row|
    ensures DropColumn(InsertColumn(row, c, v), c) == row
  {
  }

  /** What `prepare_data` returns: one sample per start row i with a full window
      and a row after it; the sample is rows i .. i + w - 1 without the target
      column, its label is the target of row i + w. */
  predicate Prepared(data: seq<seq<real>>, width: nat, w: nat, c: nat, x: seq<seq<seq<real>>>, y: seq<real>)
    requires Table(data, width) && c < width
  {
    && |x| == |y| == (if |data| > w then |data| - w else 0)
    && (forall i :: 0 <= i < |x| ==> |x[i]| == w && y[i] == data[i + w][c])
    && (forall i, j :: 0 <= i < |x| && 0 <= j < w ==> x[i][j] == DropColumn(data[i + j], c))
  }

  /** `prepare_data(window_size=w, y_column=c)`. `None` is the KeyError raised
      by a target column the frame does not have, which only surfaces once the
      loop body runs, that is, when there are more than w rows. */
  method PrepareData(data: seq<seq<real>>, width: nat, w: nat, c: nat)
    returns (r: Option<(seq<seq<seq<real>>>, seq<real>)>)
    requires Table(data, width)
    ensures r.None? <==> c >= width && |data| > w
    ensures r.Some? && c < width ==> Prepared(data, width, w, c, r.value.0, r.value.1)
    ensures r.Some? ==> |r.value.0| == |r.value.1| == (if |data| > w then |data| - w else 0)
  {
    var x: seq<seq<seq<real>>> := [];
    var y: seq<real> := [];
    var i := 0;
    while i + w < |data|
      invariant |x| == |y| == i
      invariant i == 0 || i + w <= |data|
      invariant i > 0 ==> c < width
      invariant forall k :: 0 <= k < i ==> |x[k]| == w && y[k] == data[k + w][c]
      invariant forall k, j :: 0 <= k < i && 0 <= j < w ==> x[k][j] == DropColumn(data[k + j], c)
    {
      if c >= width {
        return None;
      }
      var window := seq(w, j requires 0 <= j < w => DropColumn(data[i + j], c));
      x := x + [window];
      y := y + [data[i + w][c]];
      i := i + 1;
    }
    r := Some((x, y));
  }

  /** Consecutive samples overlap in all but one row. */
  lemma WindowsOverlap(data: seq<seq<real>>, width: nat, w: nat, c: nat, x: seq<seq<seq<real>>>, y: seq<real>, i: nat)
    requires Table(data, width) && c < width
    requires Prepared(data, width, w, c, x, y)
    requires 0 < w && i + 1 < |x|
    ensures x[i + 1][..w - 1] == x[i][1..]
  {
  }

  /** The label of sample i and the last row of sample i + 1 together give back
      row i + w of the frame. */
  lemma LabelCompletesNextWindow(data: seq<seq<real>>, width: nat, w: nat, c: nat, x: seq<seq<seq<real>>>, y: seq<real>, i: nat)
    requires Table(data, width) && c < width
    requires Prepared(data, width, w, c, x, y)
    requires 0 < w && i + 1 < |x|
    ensures InsertColumn(x[i + 1][w - 1], c, y[i]) == data[i + w]
  {
  }

  // ---------------------------------------------------------------------------
  // __best_result

  /** The best error so far; it starts at `float('inf')`. */
  datatype Mse = Infinite | Finite(value: real)

  /** `mse_after < self.best_mse`. */
  predicate Below(x: real, m: Mse) {
    m.Infinite? || x < m.value
  }

  /** a <= b, with infinity above every real. */
  predicate AtMost(a: Mse, b: Mse) {
    b.Infinite? || (a.Finite? && a.value <= b.value)
  }

  /** The `best_parameters` dictionary. */
  datatype Record = Record(numFeatures: nat, bestMse: real, kept: seq<nat>, removed: seq<nat>)

  /** `best_mse` and `best_parameters`. */
  datatype Tracker = Tracker(bestMse: Mse, best: Option<Record>)

  const Initial := Tracker(Infinite, None)

  /** `[i for i in range(count) if i not in removed]`. */
  function Kept(count: nat, removed: seq<nat>): (r: seq<nat>)
    ensures forall k :: 0 <= k < |r| ==> r[k] < count
    ensures forall k, m :: 0 <= k < m < |r| ==> r[k] < r[m]
    ensures forall i :: 0 <= i < count ==> (i in r <==> i !in removed)
  {
    if count == 0 then []
    else Kept(count - 1, removed) + (if count - 1 in removed then [] else [count - 1])
  }

  /** The removed indices below count. */
  function RemovedBelow(count: nat, removed: seq<nat>): set<nat> {
    set i: nat | i < count && i in removed
  }

  /** The kept and the removed indices partition range(count). */
  lemma {:induction false} KeptCount(count: nat, removed: seq<nat>)
    ensures |Kept(count, removed)| + |RemovedBelow(count, removed)| == count
  {
    if count > 0 {
      KeptCount(count - 1, removed);
      var s := RemovedBelow(count - 1, removed);
      if count - 1 in removed {
        assert RemovedBelow(count, removed) == s + {count - 1};
        assert count - 1 !in s;
      } else {
        assert RemovedBelow(count, removed) == s;
      }
    }
  }

  /** The tracker's own invariant: an error is recorded exactly when a record
      is, and the record agrees with it and with its kept list. */
  predicate Consistent(t: Tracker) {
    && (t.bestMse.Infinite? <==> t.best.None?)
    && (t.best.Some? ==>
          t.bestMse == Finite(t.best.value.bestMse) && t.best.value.numFeatures == |t.best.value.kept|)
  }

  /** `__best_result(num_features_to_keep, index_of_min_value, mse_before, mse_after)`
      for a data set with `count` features. */
  function BestResult(t: Tracker, count: nat, removed: seq<nat>, mse: real): (r: Tracker)
    ensures Below(mse, t.bestMse) ==>
      && r.bestMse == Finite(mse) && r.best.Some?
      && r.best.value.removed == removed
      && (forall i :: 0 <= i < count ==> (i in r.best.value.kept <==> i !in removed))
      && r.best.value.kept == Kept(count, removed)
      && r.best.value.numFeatures == |r.best.value.kept| && r.best.value.bestMse == mse
    ensures !Below(mse, t.bestMse) ==> r == t
    ensures Consistent(t) ==> Consistent(r)
    ensures AtMost(r.bestMse, t.bestMse) && AtMost(r.bestMse, Finite(mse))
  {
    if Below(mse, t.bestMse) then
      var kept := Kept(count, removed);
      Tracker(Finite(mse), Some(Record(|kept|, mse, kept, removed)))
    else t
  }

  /** One elimination round: the indices removed so far and the error after. */
  datatype Round = Round(removed: seq<nat>, mse: real)

  /** The tracker after a run of rounds, `__best_result` being called once per
      round of the elimination loop: its error is at most every round's error,
      and it is finite once there has been a round. */
  function Run(count: nat, rounds: seq<Round>): (r: Tracker)
    ensures forall k :: 0 <= k < |rounds| ==> AtMost(r.bestMse, Finite(rounds[k].mse))
    ensures r.bestMse.Finite? <==> |rounds| > 0
  {
    if |rounds| == 0 then Initial
    else
      var last := rounds[|rounds| - 1];
      BestResult(Run(count, rounds[..|rounds| - 1]), count, last.removed, last.mse)
  }

  /** The round with the smallest error, the first one on ties. */
  function FirstMin(rounds: seq<Round>): (k: nat)
    requires |rounds| > 0
    ensures k < |rounds|
    ensures forall m :: 0 <= m < |rounds| ==> rounds[k].mse <= rounds[m].mse
    ensures forall m :: 0 <= m < k ==> rounds[k].mse < rounds[m].mse
  {
    if |rounds| == 1 then 0
    else
      var k := FirstMin(rounds[..|rounds| - 1]);
      if rounds[|rounds| - 1].mse < rounds[k].mse then |rounds| - 1 else k
  }

  /** After any run of rounds, the tracker holds exactly what the first round
      with the smallest error recorded, and nothing before any round. */
  lemma {:induction false} RunKeepsFirstMinimum(count: nat, rounds: seq<Round>)
    ensures |rounds| == 0 ==> Run(count, rounds) == Initial
    ensures |rounds| > 0 ==>
      var k := FirstMin(rounds);
      Run(count, rounds) == BestResult(Initial, count, rounds[k].removed, rounds[k].mse)
  {
    if |rounds| > 1 {
      var prefix := rounds[..|rounds| - 1];
      RunKeepsFirstMinimum(count, prefix);
    }
  }

  /** The tracker never holds an inconsistent state. */
  lemma {:induction false} RunConsistent(count: nat, rounds: seq<Round>)
    ensures Consistent(Run(count, rounds))
  {
    if |rounds| > 0 {
      RunConsistent(count, rounds[..|rounds| - 1]);
    }
  }
}
