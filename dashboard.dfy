/** The two computations of the dashboard page (app.py) that are not
    presentation: the arrow that compares a forecast with the current price
    (app.py:138-144) and the risk metrics of the simulated returns
    (app.py:181-184). */
module Dashboard {
  import opened Reductions

  /** The tuple `arrow` returns: a symbol, its colour and the signed change. */
  datatype Arrow = Arrow(symbol: string, color: string, delta: real)

  const Up := "\U{25B2}"
  const Down := "\U{25BC}"
  const Level := "\U{2192}"
  const Green := "#22c55e"
  const Red := "#ef4444"
  const Grey := "#9ca3af"

  /** `arrow(expected, current)`: green up when the forecast is above the
      current price, red down when below, grey level when equal; the change
      reported is the forecast minus the current price in every branch (the
      level branch returns 0, which is that difference). */
  function ArrowOf(expected: real, current: real): (r: Arrow)
    ensures r.symbol == Up <==> expected > current
    ensures r.symbol == Down <==> expected < current
    ensures r.symbol == Level <==> expected == current
    ensures r.color == (if expected > current then Green else if expected < current then Red else Grey)
    ensures r.delta == expected - current
  {
    var delta := expected - current;
    if delta > 0.0 then Arrow(Up, Green, delta)
    else if delta < 0.0 then Arrow(Down, Red, delta)
    else Arrow(Level, Grey, 0.0)
  }

  /** Swapping forecast and current price turns an up arrow into a down
      arrow and negates the change. */
  lemma ArrowAntisymmetric(a: real, b: real)
    ensures ArrowOf(a, b).symbol == Up <==> ArrowOf(b, a).symbol == Down
    ensures ArrowOf(a, b).symbol == Level <==> ArrowOf(b, a).symbol == Level
    ensures ArrowOf(a, b).delta == -ArrowOf(b, a).delta
  {
    assert Up != Down && Up != Level && Down != Level by {
      assert Up[0] != Down[0] && Up[0] != Level[0] && Down[0] != Level[0];
    }
  }

  /** `(final_prices - current_price) / current_price`: the simple return of
      every trial. */
  function SimReturns(finals: seq<real>, current: real): (r: seq<real>)
    requires current != 0.0
    ensures |r| == |finals|
    ensures forall j :: 0 <= j < |finals| ==> r[j] == (finals[j] - current) / current
  {
    if finals == [] then []
    else [(finals[0] - current) / current] + SimReturns(finals[1..], current)
  }

  /** `sim_returns.mean() * 100`: the expected return in percent. */
  function ExpectedReturn(finals: seq<real>, current: real): real
    requires |finals| > 0 && current != 0.0
  {
    Mean(SimReturns(finals, current)) * 100.0
  }

  lemma DivAdd(x: real, y: real, c: real)
    requires c != 0.0
    ensures x / c + y / c == (x + y) / c
  {
  }

  lemma DivSwap(g: real, c: real, n: real)
    requires c != 0.0 && n != 0.0
    ensures (g / c) / n == (g / n) / c
  {
  }

  lemma MeanLessConstant(s: real, n: real, c: real)
    requires n != 0.0
    ensures s / n - c == (s - n * c) / n
  {
  }

  /** The sum of the returns is the total gain over the current price,
      divided by the current price. */
  lemma {:induction false} SumOfReturns(finals: seq<real>, current: real)
    requires current != 0.0
    ensures Sum(SimReturns(finals, current)) == (Sum(finals) - |finals| as real * current) / current
  {
    if finals != [] {
      var rest := finals[1..];
      SumOfReturns(rest, current);
      assert SimReturns(finals, current)[1..] == SimReturns(rest, current);
      DivAdd(finals[0] - current, Sum(rest) - |rest| as real * current, current);
      assert (finals[0] - current) + (Sum(rest) - |rest| as real * current)
        == Sum(finals) - |finals| as real * current;
    }
  }

  /** The expected return is the mean final price's gain over the current
      price, in percent. */
  lemma ExpectedReturnOfMeanPrice(finals: seq<real>, current: real)
    requires |finals| > 0 && current != 0.0
    ensures ExpectedReturn(finals, current) == (Mean(finals) - current) / current * 100.0
  {
    var n := |finals| as real;
    var gain := Sum(finals) - n * current;
    SumOfReturns(finals, current);
    assert Mean(SimReturns(finals, current)) == (gain / current) / n;
    DivSwap(gain, current, n);
    MeanLessConstant(Sum(finals), n, current);
    assert Mean(finals) - current == gain / n;
  }

  /** `sim_returns.std()`, which the model does not compute: a non-negative
      number whose square is numpy's population variance. */
  predicate IsDeviation(simReturns: seq<real>, sd: real)
    requires |simReturns| > 0
  {
    sd >= 0.0 && Square(sd) == Variance(simReturns)
  }

  /** The Sharpe ratio of app.py:184: the mean return over its standard
      deviation, or 0 when the deviation is 0. */
  function SharpeRatio(simReturns: seq<real>, sd: real): real
    requires |simReturns| > 0 && IsDeviation(simReturns, sd)
  {
    if sd != 0.0 then Mean(simReturns) / sd else 0.0
  }

  lemma DivInjective(a: real, b: real, c: real)
    requires c != 0.0 && a / c == b / c
    ensures a == b
  {
  }

  lemma QuotientSign(a: real, b: real)
    requires b > 0.0
    ensures a / b > 0.0 <==> a > 0.0
    ensures a / b < 0.0 <==> a < 0.0
  {
  }

  /** The returns have no dispersion exactly when every trial ends on the
      same price; then the guard makes the Sharpe ratio 0, and otherwise the
      ratio is the mean return over the deviation. */
  lemma SharpeGuard(finals: seq<real>, current: real, sd: real)
    requires |finals| > 0 && current != 0.0
    requires IsDeviation(SimReturns(finals, current), sd)
    ensures sd == 0.0 <==> forall j :: 0 <= j < |finals| ==> finals[j] == finals[0]
    ensures (forall j :: 0 <= j < |finals| ==> finals[j] == finals[0]) ==>
      SharpeRatio(SimReturns(finals, current), sd) == 0.0
    ensures (exists j :: 0 <= j < |finals| && finals[j] != finals[0]) ==>
      SharpeRatio(SimReturns(finals, current), sd) == Mean(SimReturns(finals, current)) / sd
  {
    var simReturns := SimReturns(finals, current);
    VarianceZero(simReturns);
    assert (forall j :: 0 <= j < |simReturns| ==> simReturns[j] == simReturns[0]) <==>
      (forall j :: 0 <= j < |finals| ==> finals[j] == finals[0]) by {
      forall j | 0 <= j < |finals| && simReturns[j] == simReturns[0]
        ensures finals[j] == finals[0]
      {
        DivInjective(finals[j] - current, finals[0] - current, current);
      }
    }
    if sd != 0.0 {
      SquarePositive(sd);
    }
  }

  /** With dispersion, the Sharpe ratio has the sign of the expected return:
      positive exactly when the mean final price is above the current price
      (for a positive current price), negative exactly when below. */
  lemma SharpeSign(finals: seq<real>, current: real, sd: real)
    requires |finals| > 0 && current > 0.0
    requires IsDeviation(SimReturns(finals, current), sd) && sd != 0.0
    ensures SharpeRatio(SimReturns(finals, current), sd) > 0.0 <==> Mean(finals) > current
    ensures SharpeRatio(SimReturns(finals, current), sd) < 0.0 <==> Mean(finals) < current
  {
    var simReturns := SimReturns(finals, current);
    ExpectedReturnOfMeanPrice(finals, current);
    QuotientSign(Mean(simReturns), sd);
    QuotientSign(Mean(finals) - current, current);
  }
}
