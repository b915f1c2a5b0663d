/** Optional values: `None` stands for a pandas NaN cell or a NumPy NaN result. */
module Wrappers {

  datatype Option<+T> = None | Some(value: T)
}

/** The rows the signal pipeline works on, from raw candles to signalled rows. */
module Bars {

  /** One candle of the input frame. `priceChange` is the PriceChange column,
      which is computed before the pipeline runs and is taken here as given. */
  datatype Bar = Bar(open: real, high: real, low: real, close: real, priceChange: real)

  /** A candle after `define_level`: the RollingMax and RollingMin columns added. */
  datatype Leveled = Leveled(bar: Bar, rollingMax: real, rollingMin: real)

  /** The Signal column after a classifier. Each classifier encodes its two triggers
      as 1 and 2 and adds them; 1 and 2 are relabelled "buy"/"sell", while the
      sum 3 (both triggers fired) is left as the number 3, modelled by `Both`. */
  datatype Code = Buy | Sell | Both

  datatype Signaled = Signaled(row: Leveled, signal: Code)

  /** A candle whose high is not below its low. */
  predicate WellFormed(b: Bar) {
    b.low <= b.high
  }

  predicate AllWellFormed(bars: seq<Bar>) {
    forall i :: 0 <= i < |bars| ==> WellFormed(bars[i])
  }
}

/** Sums of real sequences, folded from the back so that appending is immediate. */
module Sums {

  function Sum(s: seq<real>): real
  {
    if |s| == 0 then 0.0 else Sum(s[..|s| - 1]) + s[|s| - 1]
  }

  predicate NonNegative(s: seq<real>) {
    forall i :: 0 <= i < |s| ==> 0.0 <= s[i]
  }

  lemma SumAppend(s: seq<real>, x: real)
    ensures Sum(s + [x]) == Sum(s) + x
  {
  }

  lemma {:induction false} SumNonNegative(s: seq<real>)
    requires NonNegative(s)
    ensures 0.0 <= Sum(s)
  {
    if |s| > 0 {
      SumNonNegative(s[..|s| - 1]);
    }
  }
}
