/** `define_level`: trailing max of High and min of Low over a window, shifted
    back by `bias` rows, with incomplete rows dropped. */
module Levels {

  import opened Wrappers
  import opened Bars

  /** A window or bias argument as the caller passes it: a Python int or float. */
  datatype Num = Int(i: int) | Float(x: real)

  function Abs(x: real): real {
    if x < 0.0 then -x else x
  }

  /** `math.ceil` on a real. */
  function Ceil(x: real): (c: int)
    ensures x <= c as real < x + 1.0
  {
    -((-x).Floor)
  }

  /** `ceil(abs(n))`. */
  function CeilAbs(n: Num): (c: nat)
    ensures n.Int? ==> c == (if n.i < 0 then -n.i else n.i)
    ensures n.Float? ==> Abs(n.x) <= c as real < Abs(n.x) + 1.0
  {
    match n
    case Int(i) => if i < 0 then -i else i
    case Float(x) => Ceil(Abs(x))
  }

  /** The pair `define_level` accepts without touching it: a positive int
      window and a non-negative int bias. */
  predicate Valid(window: Num, bias: Num) {
    window.Int? && bias.Int? && window.i > 0 && bias.i >= 0
  }

  /** The parameter normalisation at the top of `define_level`: when either
      argument is not acceptable, BOTH are replaced by `ceil(abs(x))`. */
  function Coerce(window: Num, bias: Num): (p: (nat, nat))
    ensures Valid(window, bias) ==> p == (window.i, bias.i)
  {
    if !Valid(window, bias) then (CeilAbs(window), CeilAbs(bias)) else (window.i, bias.i)
  }

  /** Coercing both arguments together is the same as coercing each one on its
      own: the joint test in `define_level` never changes a valid argument. */
  lemma CoerceIsPerArgument(window: Num, bias: Num)
    ensures Coerce(window, bias) == (CeilAbs(window), CeilAbs(bias))
  {
  }

  /** The coerced window is zero only for a zero argument. */
  lemma CoercedWindowPositive(window: Num, bias: Num)
    ensures Coerce(window, bias).0 >= 1 <==> window != Int(0) && window != Float(0.0)
  {
  }

  /** Some bar among rows k .. k + window - 1 has High equal to m. */
  predicate HighAt(bars: seq<Bar>, k: int, window: nat, m: real) {
    exists j :: k <= j < k + window && 0 <= j < |bars| && bars[j].high == m
  }

  /** Some bar among rows k .. k + window - 1 has Low equal to m. */
  predicate LowAt(bars: seq<Bar>, k: int, window: nat, m: real) {
    exists j :: k <= j < k + window && 0 <= j < |bars| && bars[j].low == m
  }

  /** Maximum High over input rows a .. b - 1. */
  function MaxHigh(bars: seq<Bar>, a: nat, b: nat): (m: real)
    requires a < b <= |bars|
    ensures forall j :: a <= j < b ==> bars[j].high <= m
    ensures HighAt(bars, a, b - a, m)
    decreases b
  {
    if b == a + 1 then bars[a].high
    else
      var t := MaxHigh(bars, a, b - 1);
      if bars[b - 1].high >= t then bars[b - 1].high else t
  }

  /** Minimum Low over input rows a .. b - 1. */
  function MinLow(bars: seq<Bar>, a: nat, b: nat): (m: real)
    requires a < b <= |bars|
    ensures forall j :: a <= j < b ==> m <= bars[j].low
    ensures LowAt(bars, a, b - a, m)
    decreases b
  {
    if b == a + 1 then bars[a].low
    else
      var t := MinLow(bars, a, b - 1);
      if bars[b - 1].low <= t then bars[b - 1].low else t
  }

  /** `High.rolling(window).max()`: NaN until a full window is available, then
      the largest High of the window ending at the row. */
  function RollingMaxColumn(bars: seq<Bar>, window: nat): (col: seq<Option<real>>)
    requires window >= 1
    ensures |col| == |bars|
    ensures forall i :: 0 <= i < |bars| ==> (col[i].Some? <==> i >= window - 1)
    ensures forall i :: window - 1 <= i < |bars| ==>
      (forall j :: i - (window - 1) <= j <= i ==> bars[j].high <= col[i].value)
      && HighAt(bars, i - (window - 1), window, col[i].value)
  {
    var col := seq(|bars|, i requires 0 <= i < |bars| =>
      if i >= window - 1 then Some(MaxHigh(bars, i - (window - 1), i + 1)) else None);
    assert forall i :: window - 1 <= i < |bars| ==> col[i] == Some(MaxHigh(bars, i - (window - 1), i + 1));
    col
  }

  /** `Low.rolling(window).min()`: NaN until a full window is available, then
      the smallest Low of the window ending at the row. */
  function RollingMinColumn(bars: seq<Bar>, window: nat): (col: seq<Option<real>>)
    requires window >= 1
    ensures |col| == |bars|
    ensures forall i :: 0 <= i < |bars| ==> (col[i].Some? <==> i >= window - 1)
    ensures forall i :: window - 1 <= i < |bars| ==>
      (forall j :: i - (window - 1) <= j <= i ==> col[i].value <= bars[j].low)
      && LowAt(bars, i - (window - 1), window, col[i].value)
  {
    var col := seq(|bars|, i requires 0 <= i < |bars| =>
      if i >= window - 1 then Some(MinLow(bars, i - (window - 1), i + 1)) else None);
    assert forall i :: window - 1 <= i < |bars| ==> col[i] == Some(MinLow(bars, i - (window - 1), i + 1));
    col
  }

  /** `Series.shift(bias)`: row i receives row i - bias, the first rows NaN. */
  function Shift(col: seq<Option<real>>, bias: nat): (s: seq<Option<real>>)
    ensures |s| == |col|
    ensures forall i :: 0 <= i < |col| ==> s[i] == (if i >= bias then col[i - bias] else None)
    ensures bias <= |col| ==> s == seq(bias, _ => None) + col[..|col| - bias]
    ensures bias >= |col| ==> s == seq(|col|, _ => None)
  {
    seq(|col|, i requires 0 <= i < |col| => if i >= bias then col[i - bias] else None)
  }

  /** `dropna` followed by `reset_index`, on a frame whose only NaN cells are
      in the two level columns: keep, in order, the rows whose two level cells
      are both present. */
  function DropNa(bars: seq<Bar>, hi: seq<Option<real>>, lo: seq<Option<real>>): seq<Leveled>
    requires |hi| == |bars| && |lo| == |bars|
  {
    if |bars| == 0 then []
    else
      (if hi[0].Some? && lo[0].Some? then [Leveled(bars[0], hi[0].value, lo[0].value)] else [])
      + DropNa(bars[1..], hi[1..], lo[1..])
  }

  /** When the missing cells are exactly the first `t` rows, `DropNa` keeps the
      rest, row for row. */
  lemma {:induction false} DropLeading(bars: seq<Bar>, hi: seq<Option<real>>, lo: seq<Option<real>>, t: nat)
    requires |hi| == |bars| && |lo| == |bars| && t <= |bars|
    requires forall i :: 0 <= i < |bars| ==> (hi[i].Some? && lo[i].Some? <==> i >= t)
    ensures |DropNa(bars, hi, lo)| == |bars| - t
    ensures forall k :: 0 <= k < |bars| - t ==>
      DropNa(bars, hi, lo)[k] == Leveled(bars[t + k], hi[t + k].value, lo[t + k].value)
  {
    if |bars| > 0 {
      DropLeading(bars[1..], hi[1..], lo[1..], if t > 0 then t - 1 else 0);
    }
  }

  /** `define_level` on already coerced parameters. Output row k is input row
      k + window + bias - 1, and its levels cover input rows k .. k + window - 1. */
  function DefineLevel(bars: seq<Bar>, window: nat, bias: nat): (r: seq<Leveled>)
    requires window >= 1
    ensures |r| == (if |bars| >= window + bias then |bars| - window - bias + 1 else 0)
    ensures forall k :: 0 <= k < |r| ==> r[k].bar == bars[k + window + bias - 1]
    ensures forall k, j :: 0 <= k < |r| && k <= j < k + window ==>
      bars[j].high <= r[k].rollingMax && r[k].rollingMin <= bars[j].low
    ensures forall k :: 0 <= k < |r| ==>
      HighAt(bars, k, window, r[k].rollingMax)
    ensures forall k :: 0 <= k < |r| ==>
      LowAt(bars, k, window, r[k].rollingMin)
  {
    var hi := Shift(RollingMaxColumn(bars, window), bias);
    var lo := Shift(RollingMinColumn(bars, window), bias);
    ShiftedColumns(bars, window, bias);
    KeptRows(bars, hi, lo, window, bias);
    var r := DropNa(bars, hi, lo);
    r
  }

  /** Row by row, what `DropNa` keeps from level columns that are present
      exactly from row window + bias - 1 on. */
  lemma KeptRows(bars: seq<Bar>, hi: seq<Option<real>>, lo: seq<Option<real>>, window: nat, bias: nat)
    requires window >= 1 && |hi| == |bars| && |lo| == |bars|
    requires forall i :: 0 <= i < |bars| ==> (hi[i].Some? && lo[i].Some? <==> i >= window + bias - 1)
    requires forall i :: window + bias - 1 <= i < |bars| ==>
      hi[i] == Some(MaxHigh(bars, i - bias - (window - 1), i - bias + 1))
      && lo[i] == Some(MinLow(bars, i - bias - (window - 1), i - bias + 1))
    ensures |DropNa(bars, hi, lo)| == (if |bars| >= window + bias then |bars| - window - bias + 1 else 0)
    ensures forall k :: 0 <= k < |DropNa(bars, hi, lo)| ==>
      DropNa(bars, hi, lo)[k].bar == bars[k + window + bias - 1]
      && DropNa(bars, hi, lo)[k].rollingMax == MaxHigh(bars, k, k + window)
      && DropNa(bars, hi, lo)[k].rollingMin == MinLow(bars, k, k + window)
  {
    var t := if |bars| >= window + bias - 1 then window + bias - 1 else |bars|;
    DropLeading(bars, hi, lo, t);
    var r := DropNa(bars, hi, lo);
    forall k | 0 <= k < |r|
      ensures r[k].bar == bars[k + window + bias - 1]
      ensures r[k].rollingMax == MaxHigh(bars, k, k + window) && r[k].rollingMin == MinLow(bars, k, k + window)
    {
      var i := t + k;
      assert r[k] == Leveled(bars[i], hi[i].value, lo[i].value);
      assert i - bias - (window - 1) == k && i - bias + 1 == k + window;
    }
  }

  /** The shifted rolling columns: present exactly from row window + bias - 1 on,
      and there holding the levels of the window that ends bias rows earlier. */
  lemma ShiftedColumns(bars: seq<Bar>, window: nat, bias: nat)
    requires window >= 1
    ensures var hi := Shift(RollingMaxColumn(bars, window), bias);
      var lo := Shift(RollingMinColumn(bars, window), bias);
      && |hi| == |bars| && |lo| == |bars|
      && (forall i :: 0 <= i < |bars| ==> (hi[i].Some? && lo[i].Some? <==> i >= window + bias - 1))
      && (forall i :: window + bias - 1 <= i < |bars| ==>
            hi[i] == Some(MaxHigh(bars, i - bias - (window - 1), i - bias + 1))
            && lo[i] == Some(MinLow(bars, i - bias - (window - 1), i - bias + 1)))
  {
  }

  /** `define_level` as called, with the argument normalisation. */
  function DefineLevelArgs(bars: seq<Bar>, window: Num, bias: Num): (r: seq<Leveled>)
    requires Coerce(window, bias).0 >= 1
    ensures Valid(window, bias) ==> r == DefineLevel(bars, window.i, bias.i)
    ensures CeilAbs(window) >= 1 && r == DefineLevel(bars, CeilAbs(window), CeilAbs(bias))
  {
    CoerceIsPerArgument(window, bias);
    var p := Coerce(window, bias);
    DefineLevel(bars, p.0, p.1)
  }

  /** On candles whose high is not below their low, every output row has
      RollingMax >= RollingMin. */
  lemma LevelsOrdered(bars: seq<Bar>, window: nat, bias: nat)
    requires window >= 1 && AllWellFormed(bars)
    ensures forall k :: 0 <= k < |DefineLevel(bars, window, bias)| ==>
      DefineLevel(bars, window, bias)[k].rollingMin <= DefineLevel(bars, window, bias)[k].rollingMax
  {
  }

  /** With `bias = 0` every row's window ends at the row itself, so its own
      High and Low lie inside its levels. */
  lemma ZeroBiasContainsRow(bars: seq<Bar>, window: nat)
    requires window >= 1
    ensures forall k :: 0 <= k < |DefineLevel(bars, window, 0)| ==>
      DefineLevel(bars, window, 0)[k].bar.high <= DefineLevel(bars, window, 0)[k].rollingMax &&
      DefineLevel(bars, window, 0)[k].rollingMin <= DefineLevel(bars, window, 0)[k].bar.low
  {
  }
}
