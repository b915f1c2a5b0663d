/** `calculate_percentage`: a single pass that collects, per side, the price
    changes of directionally correct rows (numerator) and of all rows under
    that side (denominator), then reports each side's ratio in percent. */
module Percentage {

  import opened Wrappers
  import opened Bars
  import opened Sums

  /** The loop state: the two counters and, per side, the numerator values
      (`sell_price_changes`, `buy_price_changes`) and the denominator values
      (`oll_sell_price_changes`, `oll_buy_price_changes`). */
  datatype Tally = Tally(
    sellCount: nat, buyCount: nat,
    sellHits: seq<real>, buyHits: seq<real>,
    sellAll: seq<real>, buyAll: seq<real>)

  const Start := Tally(0, 0, [], [], [], [])

  /** One side's lists after a step: the numerator either stays, or receives
      `x` together with the denominator; the denominator may also receive `x`
      on its own. */
  predicate Follows(num: seq<real>, den: seq<real>, num': seq<real>, den': seq<real>, x: real) {
    || (num' == num && (den' == den || den' == den + [x]))
    || (num' == num + [x] && den' == den + [x])
  }

  /** Every numerator value is matched by a denominator value. */
  predicate Dominated(num: seq<real>, den: seq<real>) {
    multiset(num) <= multiset(den)
  }

  /** The numerator sum lies between 0 and the denominator sum. */
  predicate Bounded(num: seq<real>, den: seq<real>) {
    0.0 <= Sum(num) <= Sum(den)
  }

  /** One iteration of the loop on a row. A "sell" row always feeds the sell
      denominator; when Close < Open it also feeds the sell numerator, and if
      a correct buy was pending, the same value crosses over into both buy
      lists and the buy counter is reset. "buy" mirrors this; a row with the
      combined code 3 matches neither test and changes nothing. */
  function Step(t: Tally, s: Signaled): (u: Tally)
    ensures Follows(t.sellHits, t.sellAll, u.sellHits, u.sellAll, s.row.bar.priceChange)
    ensures Follows(t.buyHits, t.buyAll, u.buyHits, u.buyAll, s.row.bar.priceChange)
    ensures s.signal == Sell ==>
      var b := s.row.bar;
      && u.sellAll == t.sellAll + [b.priceChange]
      && (u.sellHits == t.sellHits + [b.priceChange] <==> b.close < b.open)
      && (u.sellHits == t.sellHits <==> !(b.close < b.open))
      && (u.buyHits != t.buyHits <==> b.close < b.open && t.buyCount > 0)
      && (u.buyCount == 0 <==> b.close < b.open || t.buyCount == 0)
      && u.buyAll == (if b.close < b.open && t.buyCount > 0 then t.buyAll + [b.priceChange] else t.buyAll)
      && u.sellCount == (if b.close < b.open then t.sellCount + 1 else t.sellCount)
      && u.buyCount == (if b.close < b.open then 0 else t.buyCount)
    ensures s.signal == Buy ==>
      var b := s.row.bar;
      && u.buyAll == t.buyAll + [b.priceChange]
      && (u.buyHits == t.buyHits + [b.priceChange] <==> b.close > b.open)
      && (u.buyHits == t.buyHits <==> !(b.close > b.open))
      && (u.sellHits != t.sellHits <==> b.close > b.open && t.sellCount > 0)
      && (u.sellCount == 0 <==> b.close > b.open || t.sellCount == 0)
      && u.sellAll == (if b.close > b.open && t.sellCount > 0 then t.sellAll + [b.priceChange] else t.sellAll)
      && u.buyCount == (if b.close > b.open then t.buyCount + 1 else t.buyCount)
      && u.sellCount == (if b.close > b.open then 0 else t.sellCount)
    ensures s.signal == Both ==> u == t
  {
    var b := s.row.bar;
    var x := b.priceChange;
    match s.signal
    case Sell =>
      var t1 := t.(sellAll := t.sellAll + [x]);
      if b.close < b.open then
        var t2 := t1.(sellHits := t1.sellHits + [x], sellCount := t1.sellCount + 1);
        if t2.buyCount > 0 then t2.(buyHits := t2.buyHits + [x], buyAll := t2.buyAll + [x], buyCount := 0)
        else t2
      else t1
    case Buy =>
      var t1 := t.(buyAll := t.buyAll + [x]);
      if b.close > b.open then
        var t2 := t1.(buyHits := t1.buyHits + [x], buyCount := t1.buyCount + 1);
        if t2.sellCount > 0 then t2.(sellHits := t2.sellHits + [x], sellAll := t2.sellAll + [x], sellCount := 0)
        else t2
      else t1
    case Both => t
  }

  /** The `for` loop over all rows. It only ever appends: each of the four
      lists it starts from is a prefix of the list it ends with. */
  function Loop(rows: seq<Signaled>, t: Tally): (u: Tally)
    ensures t.sellHits <= u.sellHits && t.sellAll <= u.sellAll
    ensures t.buyHits <= u.buyHits && t.buyAll <= u.buyAll
  {
    if |rows| == 0 then t else Loop(rows[1..], Step(t, rows[0]))
  }

  /** The two tail steps after the loop: a side whose counter is still
      positive receives the last row's price change in both of its lists. */
  function Finish(t: Tally, x: real): (u: Tally)
    ensures Follows(t.sellHits, t.sellAll, u.sellHits, u.sellAll, x)
    ensures Follows(t.buyHits, t.buyAll, u.buyHits, u.buyAll, x)
    ensures t.sellCount > 0 ==> u.sellHits == t.sellHits + [x] && u.sellAll == t.sellAll + [x]
    ensures t.sellCount == 0 ==> u.sellHits == t.sellHits && u.sellAll == t.sellAll
    ensures t.buyCount > 0 ==> u.buyHits == t.buyHits + [x] && u.buyAll == t.buyAll + [x]
    ensures t.buyCount == 0 ==> u.buyHits == t.buyHits && u.buyAll == t.buyAll
  {
    var t1 := if t.sellCount > 0 then t.(sellHits := t.sellHits + [x], sellAll := t.sellAll + [x]) else t;
    if t1.buyCount > 0 then t1.(buyHits := t1.buyHits + [x], buyAll := t1.buyAll + [x]) else t1
  }

  /** The lists after the whole pass. On an empty frame both counters stay 0,
      so the tail steps (which read the last row) do not run. */
  function Tallied(rows: seq<Signaled>): Tally
  {
    if |rows| == 0 then Start
    else Finish(Loop(rows, Start), rows[|rows| - 1].row.bar.priceChange)
  }

  predicate PriceChangesNonNegative(rows: seq<Signaled>) {
    forall i :: 0 <= i < |rows| ==> 0.0 <= rows[i].row.bar.priceChange
  }

  lemma FollowsKeepsDominated(num: seq<real>, den: seq<real>, num': seq<real>, den': seq<real>, x: real)
    requires Follows(num, den, num', den', x) && Dominated(num, den)
    ensures Dominated(num', den')
  {
  }

  lemma FollowsKeepsBounded(num: seq<real>, den: seq<real>, num': seq<real>, den': seq<real>, x: real)
    requires Follows(num, den, num', den', x) && Bounded(num, den) && 0.0 <= x
    ensures Bounded(num', den')
  {
    SumAppend(num, x);
    SumAppend(den, x);
  }

  /** Both invariants of a tally, on both sides. */
  predicate Sound(t: Tally, nonNegative: bool) {
    && Dominated(t.sellHits, t.sellAll) && Dominated(t.buyHits, t.buyAll)
    && (nonNegative ==> Bounded(t.sellHits, t.sellAll) && Bounded(t.buyHits, t.buyAll))
  }

  lemma {:induction false} LoopSound(rows: seq<Signaled>, t: Tally, nonNegative: bool)
    requires Sound(t, nonNegative)
    requires nonNegative ==> PriceChangesNonNegative(rows)
    ensures Sound(Loop(rows, t), nonNegative)
  {
    if |rows| > 0 {
      var u := Step(t, rows[0]);
      var x := rows[0].row.bar.priceChange;
      FollowsKeepsDominated(t.sellHits, t.sellAll, u.sellHits, u.sellAll, x);
      FollowsKeepsDominated(t.buyHits, t.buyAll, u.buyHits, u.buyAll, x);
      if nonNegative {
        FollowsKeepsBounded(t.sellHits, t.sellAll, u.sellHits, u.sellAll, x);
        FollowsKeepsBounded(t.buyHits, t.buyAll, u.buyHits, u.buyAll, x);
      }
      LoopSound(rows[1..], u, nonNegative);
    }
  }

  /** Every value in a numerator also sits in the matching denominator, and
      with non-negative price changes each numerator sum is between 0 and its
      denominator sum. */
  lemma TalliedSound(rows: seq<Signaled>)
    ensures Dominated(Tallied(rows).sellHits, Tallied(rows).sellAll)
    ensures Dominated(Tallied(rows).buyHits, Tallied(rows).buyAll)
    ensures PriceChangesNonNegative(rows) ==>
      Bounded(Tallied(rows).sellHits, Tallied(rows).sellAll) && Bounded(Tallied(rows).buyHits, Tallied(rows).buyAll)
  {
    var nn := PriceChangesNonNegative(rows);
    if |rows| > 0 {
      var t := Loop(rows, Start);
      var x := rows[|rows| - 1].row.bar.priceChange;
      LoopSound(rows, Start, nn);
      var u := Finish(t, x);
      FollowsKeepsDominated(t.sellHits, t.sellAll, u.sellHits, u.sellAll, x);
      FollowsKeepsDominated(t.buyHits, t.buyAll, u.buyHits, u.buyAll, x);
      if nn {
        FollowsKeepsBounded(t.sellHits, t.sellAll, u.sellHits, u.sellAll, x);
        FollowsKeepsBounded(t.buyHits, t.buyAll, u.buyHits, u.buyAll, x);
      }
    }
  }

  /** The price changes of the rows labelled c, in order. */
  function Changes(rows: seq<Signaled>, c: Code): seq<real>
  {
    if |rows| == 0 then []
    else (if rows[0].signal == c then [rows[0].row.bar.priceChange] else []) + Changes(rows[1..], c)
  }

  /** A row labelled c whose candle moved in c's direction: Close < Open for
      sell, Close > Open for buy. */
  predicate Correct(s: Signaled, c: Code) {
    s.signal == c && (if c == Sell then s.row.bar.close < s.row.bar.open else s.row.bar.close > s.row.bar.open)
  }

  /** The price changes of the correct rows labelled c, in order. */
  function Hits(rows: seq<Signaled>, c: Code): seq<real>
  {
    if |rows| == 0 then []
    else (if Correct(rows[0], c) then [rows[0].row.bar.priceChange] else []) + Hits(rows[1..], c)
  }

  /** The loop only ever appends, and it appends every row's price change to
      its side's denominator and every correct row's price change to its
      side's numerator. */
  lemma {:induction false} LoopCollects(rows: seq<Signaled>, t: Tally)
    ensures multiset(t.sellAll) + multiset(Changes(rows, Sell)) <= multiset(Loop(rows, t).sellAll)
    ensures multiset(t.buyAll) + multiset(Changes(rows, Buy)) <= multiset(Loop(rows, t).buyAll)
    ensures multiset(t.sellHits) + multiset(Hits(rows, Sell)) <= multiset(Loop(rows, t).sellHits)
    ensures multiset(t.buyHits) + multiset(Hits(rows, Buy)) <= multiset(Loop(rows, t).buyHits)
  {
    if |rows| > 0 {
      var u := Step(t, rows[0]);
      LoopCollects(rows[1..], u);
    }
  }

  /** After the whole pass, each side's denominator holds the price change of
      every row labelled with that side (crossovers and tail steps add more). */
  lemma TalliedCollectsAll(rows: seq<Signaled>)
    ensures multiset(Changes(rows, Sell)) <= multiset(Tallied(rows).sellAll)
    ensures multiset(Changes(rows, Buy)) <= multiset(Tallied(rows).buyAll)
  {
    if |rows| > 0 {
      LoopCollects(rows, Start);
    }
  }

  /** After the whole pass, each side's numerator holds the price change of
      every correct row of that side. */
  lemma TalliedCollectsHits(rows: seq<Signaled>)
    ensures multiset(Hits(rows, Sell)) <= multiset(Tallied(rows).sellHits)
    ensures multiset(Hits(rows, Buy)) <= multiset(Tallied(rows).buyHits)
  {
    if |rows| > 0 {
      LoopCollects(rows, Start);
    }
  }

  /** `(num.sum() / den.sum()) * 100`. A zero denominator makes NumPy return
      NaN (or an infinity), which is `None` here. */
  function Ratio(num: seq<real>, den: seq<real>): (r: Option<real>)
    ensures r.None? <==> Sum(den) == 0.0
    ensures Bounded(num, den) && r.Some? ==> 0.0 <= r.value <= 100.0
  {
    if Sum(den) == 0.0 then None else Some(Sum(num) / Sum(den) * 100.0)
  }

  /** `calculate_percentage(data, return_count=True)`: the pair (buy, sell). */
  function Percentages(rows: seq<Signaled>): (r: (Option<real>, Option<real>))
    ensures r.0.None? <==> Sum(Tallied(rows).buyAll) == 0.0
    ensures r.1.None? <==> Sum(Tallied(rows).sellAll) == 0.0
    ensures PriceChangesNonNegative(rows) ==>
      (r.0.Some? ==> 0.0 <= r.0.value <= 100.0) && (r.1.Some? ==> 0.0 <= r.1.value <= 100.0)
  {
    var t := Tallied(rows);
    TalliedSound(rows);
    (Ratio(t.buyHits, t.buyAll), Ratio(t.sellHits, t.sellAll))
  }

  /** `calculate_percentage(data)`: the mean of the two side percentages, NaN
      (`None`) when either side is. */
  function PercentageScore(rows: seq<Signaled>): (r: Option<real>)
    ensures r.Some? <==> Percentages(rows).0.Some? && Percentages(rows).1.Some?
    ensures r.Some? ==>
      (Percentages(rows).0.value <= r.value <= Percentages(rows).1.value) ||
      (Percentages(rows).1.value <= r.value <= Percentages(rows).0.value)
    ensures r.Some? && PriceChangesNonNegative(rows) ==> 0.0 <= r.value <= 100.0
  {
    var p := Percentages(rows);
    if p.0.Some? && p.1.Some? then Some((p.1.value + p.0.value) / 2.0) else None
  }

  /** With non-negative price changes a zero denominator forces a zero
      numerator, so the only undefined case is 0/0 (NaN, never an infinity). */
  lemma ZeroDenominatorIsZeroOverZero(rows: seq<Signaled>)
    requires PriceChangesNonNegative(rows)
    ensures Sum(Tallied(rows).sellAll) == 0.0 ==> Sum(Tallied(rows).sellHits) == 0.0
    ensures Sum(Tallied(rows).buyAll) == 0.0 ==> Sum(Tallied(rows).buyHits) == 0.0
  {
    TalliedSound(rows);
  }

  /** The frame of the `calculate_percentage` docstring (Open, Close and
      PriceChange as given there; High and Low do not take part). */
  const DocFrame := [
    Signaled(Leveled(Bar(9.0, 0.0, 0.0, 10.0, 0.1), 0.0, 0.0), Sell),
    Signaled(Leveled(Bar(10.0, 0.0, 0.0, 11.0, 0.2), 0.0, 0.0), Buy),
    Signaled(Leveled(Bar(11.0, 0.0, 0.0, 12.0, -0.1), 0.0, 0.0), Buy),
    Signaled(Leveled(Bar(12.0, 0.0, 0.0, 13.0, -0.2), 0.0, 0.0), Sell)]

  /** The lists the pass collects on that frame: every candle closes above its
      open, so sell rows only feed the sell denominator, and the pending buy
      run is closed by the last row. */
  lemma DocFrameTally()
    ensures Tallied(DocFrame) == Tally(0, 2, [], [0.2, -0.1, -0.2], [0.1, -0.2], [0.2, -0.1, -0.2])
  {
    var rows := DocFrame;
    var t1 := Step(Start, rows[0]);
    assert t1 == Tally(0, 0, [], [], [0.1], []);
    var t2 := Step(t1, rows[1]);
    assert t2 == Tally(0, 1, [], [0.2], [0.1], [0.2]);
    var t3 := Step(t2, rows[2]);
    assert t3 == Tally(0, 2, [], [0.2, -0.1], [0.1], [0.2, -0.1]);
    var t4 := Step(t3, rows[3]);
    assert t4 == Tally(0, 2, [], [0.2, -0.1], [0.1, -0.2], [0.2, -0.1]);
    assert Loop(rows[3..], t3) == t4 by {
      assert rows[3..][1..] == [];
    }
    assert Loop(rows, Start) == t4 by {
      assert rows[1..] == rows[1..4] && rows[1..][1..] == rows[2..] && rows[2..][1..] == rows[3..];
    }
  }

  /** On that frame the buy side scores 100 and the sell side 0. */
  lemma DocExampleSides()
    ensures Percentages(DocFrame) == (Some(100.0), Some(0.0))
  {
    DocFrameTally();
    var t := Tallied(DocFrame);
    SumAppend([0.2], -0.1);
    SumAppend([0.2, -0.1], -0.2);
    assert Sum(t.buyAll) == -0.1 && Sum(t.buyHits) == -0.1;
    assert Sum(t.sellAll) == -0.1 && Sum(t.sellHits) == 0.0;
  }

  /** So the score of the docstring frame is 50. */
  lemma DocExampleIsFifty()
    ensures PercentageScore(DocFrame) == Some(50.0)
  {
    DocExampleSides();
  }
}
