/** `breakdown_analysis` and `rebound_analysis`: per-row triggers encoded as a
    Code, forward-filled, with the rows before the first trigger dropped. */
module Signals {

  import opened Wrappers
  import opened Bars
  import Levels

  /** The two classifiers. */
  datatype Policy = Breakout | Rebound

  /** Breakout buy: High and Close both above the resistance level. */
  predicate BreakoutBuy(r: Leveled) {
    r.rollingMax < r.bar.high && r.rollingMax < r.bar.close
  }

  /** Breakout sell: Low and Close both below the support level. */
  predicate BreakoutSell(r: Leveled) {
    r.rollingMin > r.bar.low && r.rollingMin > r.bar.close
  }

  /** Rebound sell: High pierced the resistance level but Close came back under it. */
  predicate ReboundSell(r: Leveled) {
    r.rollingMax < r.bar.high && r.rollingMax > r.bar.close
  }

  /** Rebound buy: Low pierced the support level but Close came back over it. */
  predicate ReboundBuy(r: Leveled) {
    r.rollingMin > r.bar.low && r.rollingMin < r.bar.close
  }

  predicate BuyFires(p: Policy, r: Leveled) {
    match p
    case Breakout => BreakoutBuy(r)
    case Rebound => ReboundBuy(r)
  }

  predicate SellFires(p: Policy, r: Leveled) {
    match p
    case Breakout => BreakoutSell(r)
    case Rebound => ReboundSell(r)
  }

  /** The summed 1/2 code of one row, with 0 (no trigger) as `None`. In both
      classifiers the two flags use the codes 1 and 2, so a sum of 3 means both
      fired; it is not relabelled and survives as `Both`. */
  function Trigger(p: Policy, r: Leveled): (c: Option<Code>)
    ensures c == Some(Buy) <==> BuyFires(p, r) && !SellFires(p, r)
    ensures c == Some(Sell) <==> SellFires(p, r) && !BuyFires(p, r)
    ensures c == Some(Both) <==> BuyFires(p, r) && SellFires(p, r)
    ensures c == None <==> !BuyFires(p, r) && !SellFires(p, r)
  {
    // breakout: Buy -> 1, SELL -> 2; rebound: SELL -> 1, Buy -> 2
    var buyCode := if BuyFires(p, r) then (if p.Breakout? then 1 else 2) else 0;
    var sellCode := if SellFires(p, r) then (if p.Breakout? then 2 else 1) else 0;
    var sum := buyCode + sellCode;
    if sum == 0 then None
    else if sum == 3 then Some(Both)
    else if (sum == 1) == p.Breakout? then Some(Buy)
    else Some(Sell)
  }

  /** Index of the first triggered row, or |rows| when none triggers. */
  function FirstTrigger(p: Policy, rows: seq<Leveled>): (f: nat)
    ensures f <= |rows|
    ensures forall i :: 0 <= i < f ==> Trigger(p, rows[i]).None?
    ensures f < |rows| ==> Trigger(p, rows[f]).Some?
  {
    if |rows| == 0 then 0
    else if Trigger(p, rows[0]).Some? then 0
    else 1 + FirstTrigger(p, rows[1..])
  }

  /** The code of the nearest triggered row at or before row i, or `init` when
      there is none. This is what `ffill` leaves in row i. */
  function LastTrigger(p: Policy, rows: seq<Leveled>, i: nat, init: Option<Code>): Option<Code>
    requires i < |rows|
  {
    if Trigger(p, rows[i]).Some? then Trigger(p, rows[i])
    else if i == 0 then init
    else LastTrigger(p, rows, i - 1, init)
  }

  /** One left-to-right pass: replace an untriggered code by the last one seen
      (`ffill`), and drop the rows that still have none (`dropna`). */
  function Fill(p: Policy, rows: seq<Leveled>, last: Option<Code>): seq<Signaled>
  {
    if |rows| == 0 then []
    else
      var c := if Trigger(p, rows[0]).Some? then Trigger(p, rows[0]) else last;
      (if c.Some? then [Signaled(rows[0], c.value)] else []) + Fill(p, rows[1..], c)
  }

  /** Dropping the first row: the fill state after it becomes the new default. */
  lemma {:induction false} LastTriggerTail(p: Policy, rows: seq<Leveled>, i: nat, init: Option<Code>)
    requires 0 < i < |rows|
    ensures LastTrigger(p, rows, i, init) ==
      LastTrigger(p, rows[1..], i - 1, if Trigger(p, rows[0]).Some? then Trigger(p, rows[0]) else init)
  {
    if Trigger(p, rows[i]).None? && i > 1 {
      LastTriggerTail(p, rows, i - 1, init);
    }
  }

  /** With a known starting code, `Fill` keeps every row and gives row i the
      forward-filled code. */
  lemma {:induction false} FillKnown(p: Policy, rows: seq<Leveled>, last: Option<Code>)
    requires last.Some?
    ensures |Fill(p, rows, last)| == |rows|
    ensures forall i :: 0 <= i < |rows| ==>
      Fill(p, rows, last)[i].row == rows[i] && Some(Fill(p, rows, last)[i].signal) == LastTrigger(p, rows, i, last)
  {
    if |rows| > 0 {
      var c := if Trigger(p, rows[0]).Some? then Trigger(p, rows[0]) else last;
      FillKnown(p, rows[1..], c);
      forall i | 0 < i < |rows|
        ensures LastTrigger(p, rows, i, last) == LastTrigger(p, rows[1..], i - 1, c)
      {
        LastTriggerTail(p, rows, i, last);
      }
    }
  }

  /** From an unknown state, `Fill` drops exactly the rows before the first
      trigger and forward-fills the rest. */
  lemma {:induction false} FillUnknown(p: Policy, rows: seq<Leveled>)
    ensures var f := FirstTrigger(p, rows);
      && |Fill(p, rows, None)| == |rows| - f
      && forall k :: 0 <= k < |rows| - f ==>
           Fill(p, rows, None)[k].row == rows[f + k]
           && Some(Fill(p, rows, None)[k].signal) == LastTrigger(p, rows, f + k, None)
  {
    if |rows| > 0 {
      var f := FirstTrigger(p, rows);
      if Trigger(p, rows[0]).Some? {
        FillKnown(p, rows[1..], Trigger(p, rows[0]));
        forall i | 0 < i < |rows|
          ensures LastTrigger(p, rows, i, None) == LastTrigger(p, rows[1..], i - 1, Trigger(p, rows[0]))
        {
          LastTriggerTail(p, rows, i, None);
        }
      } else {
        FillUnknown(p, rows[1..]);
        forall i | f <= i < |rows|
          ensures LastTrigger(p, rows, i, None) == LastTrigger(p, rows[1..], i - 1, None)
        {
          LastTriggerTail(p, rows, i, None);
        }
      }
    }
  }

  /** `breakdown_analysis` (Breakout) and `rebound_analysis` (Rebound): the
      suffix of the input from the first triggered row, each row carrying the
      code of the nearest triggered row at or before it. */
  function Classify(p: Policy, rows: seq<Leveled>): (r: seq<Signaled>)
    ensures |r| == |rows| - FirstTrigger(p, rows)
    ensures forall k :: 0 <= k < |r| ==> r[k].row == rows[FirstTrigger(p, rows) + k]
    ensures forall k :: 0 <= k < |r| ==>
      Some(r[k].signal) == LastTrigger(p, rows, FirstTrigger(p, rows) + k, None)
  {
    FillUnknown(p, rows);
    Fill(p, rows, None)
  }

  /** A triggered row keeps its own code; an untriggered retained row takes the
      code of the nearest triggered row before it. */
  lemma ClassifyCodes(p: Policy, rows: seq<Leveled>, k: nat)
    requires k < |Classify(p, rows)|
    ensures var i := FirstTrigger(p, rows) + k;
      && (Trigger(p, rows[i]).Some? ==> Some(Classify(p, rows)[k].signal) == Trigger(p, rows[i]))
      && (Trigger(p, rows[i]).None? ==>
            exists j ::
              FirstTrigger(p, rows) <= j < i && Some(Classify(p, rows)[k].signal) == Trigger(p, rows[j]) && (forall m :: j < m < i ==> Trigger(p, rows[m]).None?))
  {
    var f := FirstTrigger(p, rows);
    var i := f + k;
    var r := Classify(p, rows);
    assert Some(r[k].signal) == LastTrigger(p, rows, i, None);
    if Trigger(p, rows[i]).None? {
      NearestTrigger(p, rows, i, f);
      var j :| f <= j <= i && LastTrigger(p, rows, i, None) == Trigger(p, rows[j])
        && (forall m :: j < m <= i ==> Trigger(p, rows[m]).None?);
      assert j < i;
    }
  }

  /** `LastTrigger` names the nearest triggered row, when one lies at or after `lo`. */
  lemma {:induction false} NearestTrigger(p: Policy, rows: seq<Leveled>, i: nat, lo: nat)
    requires lo < |rows| && lo <= i < |rows| && Trigger(p, rows[lo]).Some?
    ensures exists j ::
      lo <= j <= i && LastTrigger(p, rows, i, None) == Trigger(p, rows[j]) && (forall m :: j < m <= i ==> Trigger(p, rows[m]).None?)
  {
    if Trigger(p, rows[i]).Some? {
      assert LastTrigger(p, rows, i, None) == Trigger(p, rows[i]);
    } else {
      NearestTrigger(p, rows, i - 1, lo);
      var j :| lo <= j <= i - 1 && LastTrigger(p, rows, i - 1, None) == Trigger(p, rows[j])
        && (forall m :: j < m <= i - 1 ==> Trigger(p, rows[m]).None?);
      assert forall m :: j < m <= i ==> Trigger(p, rows[m]).None?;
    }
  }

  /** When no row fires both triggers, no classified row carries the combined
      code: every classified code is some row's own trigger code. */
  lemma NeverBoth(p: Policy, rows: seq<Leveled>)
    requires forall k :: 0 <= k < |rows| ==> Trigger(p, rows[k]) != Some(Both)
    ensures forall k :: 0 <= k < |Classify(p, rows)| ==> Classify(p, rows)[k].signal != Both
  {
    var r := Classify(p, rows);
    var f := FirstTrigger(p, rows);
    forall k | 0 <= k < |r|
      ensures r[k].signal != Both
    {
      NearestTrigger(p, rows, f + k, f);
      var j :| f <= j <= f + k && LastTrigger(p, rows, f + k, None) == Trigger(p, rows[j]);
    }
  }

  /** On `define_level` output over well-formed candles, the breakout buy and
      sell triggers never fire together, so Breakout never yields `Both`. */
  lemma BreakoutExclusive(bars: seq<Bar>, window: nat, bias: nat)
    requires window >= 1 && AllWellFormed(bars)
    ensures forall k :: 0 <= k < |Levels.DefineLevel(bars, window, bias)| ==>
      !(BreakoutBuy(Levels.DefineLevel(bars, window, bias)[k]) && BreakoutSell(Levels.DefineLevel(bars, window, bias)[k]))
    ensures forall k :: 0 <= k < |Classify(Breakout, Levels.DefineLevel(bars, window, bias))| ==>
      Classify(Breakout, Levels.DefineLevel(bars, window, bias))[k].signal != Both
  {
    var rows := Levels.DefineLevel(bars, window, bias);
    Levels.LevelsOrdered(bars, window, bias);
    assert forall k :: 0 <= k < |rows| ==> Trigger(Breakout, rows[k]) != Some(Both);
    NeverBoth(Breakout, rows);
  }

  /** With `bias = 0` a row's own High and Low are inside its window, so no
      trigger of either classifier can fire and both return nothing. */
  lemma ZeroBiasSilent(p: Policy, bars: seq<Bar>, window: nat)
    requires window >= 1
    ensures forall k :: 0 <= k < |Levels.DefineLevel(bars, window, 0)| ==>
      Trigger(p, Levels.DefineLevel(bars, window, 0)[k]).None?
    ensures Classify(p, Levels.DefineLevel(bars, window, 0)) == []
  {
  }

  /** A wide candle can pierce both levels and close between them: the rebound
      classifier then emits the combined code 3, which is neither buy nor sell. */
  lemma ReboundBothReachable()
    ensures var r := Leveled(Bar(10.0, 20.0, 0.0, 10.0, 1.0), 15.0, 5.0);
      Trigger(Rebound, r) == Some(Both) && Classify(Rebound, [r]) == [Signaled(r, Both)]
  {
  }

  /** The frame in the `breakdown_analysis` docstring: no row meets either
      breakout trigger, so the result is empty. */
  lemma BreakdownDocExampleEmpty()
    ensures Classify(Breakout, [
      Leveled(Bar(0.0, 52.0, 48.0, 50.0, 0.0), 50.0, 45.0),
      Leveled(Bar(0.0, 55.0, 42.0, 45.0, 0.0), 55.0, 40.0),
      Leveled(Bar(0.0, 58.0, 36.0, 40.0, 0.0), 60.0, 35.0),
      Leveled(Bar(0.0, 56.0, 39.0, 42.0, 0.0), 58.0, 38.0),
      Leveled(Bar(0.0, 51.0, 45.0, 48.0, 0.0), 52.0, 43.0)]) == []
  {
  }
}
