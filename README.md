# Futuristic-Simulation: a verified model of the Monte Carlo core

Futuristic-Simulation is a stock-price forecaster. It simulates many
geometric-Brownian-motion price paths from today's price. Then it summarises
the last simulated day, finds when each path first reaches a target price,
and shows the results on a dashboard. This project models that core in Dafny
over exact reals and proves the properties the code promises.

- `outcomes.dfy` (module `Outcomes`): `Option` and `Result`.
- `reductions.dfy` (module `Reductions`): the numpy reductions the core uses.
  - sum, mean and population variance (`ddof=0`);
  - a sorted copy, proved sorted and a permutation of its input;
  - minimum and maximum, used to state bounds.
- `price_paths.dfy` (module `PricePaths`): `simulate_price_paths`.
  - The method fills a `days x sims` `array2` row by row and multiplies the shocked row in place.
  - It is proved against `Price`, a recursive definition of every matrix entry.
  - The shape, row 0 and the row-to-row recurrence are postconditions of the method; the shock's reach, positivity and identical columns are lemmas about `Price`.
- `price_statistics.dfy` (module `PriceStatistics`): `get_price_statistics`.
  - The mean, the median, and numpy's linear-interpolation 5th and 95th percentiles of the last row.
- `time_to_target.dfy` (module `TimeToTarget`): `time_to_target`.
  - The method loops over the trials.
  - It is proved against `FirstHit`, which models `np.where(...)[0][0]`, and `Present`, which keeps the trials that hit.
- `dashboard.dfy` (module `Dashboard`): two computations from `app.py`.
  - The arrow that compares a forecast with the current price.
  - The expected return and the Sharpe ratio.

Randomness and `np.exp` are not modelled. The growth factor that
`simulate_price_paths` draws for day `t` and trial `j`,
`exp((mu - sigma^2/2) + sigma*z)`, is a parameter `growth(t, j)`. The
standard deviation in the Sharpe ratio is not computed either. It is a
parameter `sd`, pinned to be non-negative with `Square(sd)` equal to numpy's
population variance.

Python exceptions become `Failure` values:

- `np.zeros` with a negative dimension gives `NegativeDimension`.
- `paths[0] = S0` on a matrix without rows gives `NoFirstRow`.
- Statistics of a matrix without rows give `NoRows`.
- Statistics of an empty last row give `NoPrices`, where numpy has no real number to give.

The shock guard `shock_day and t == shock_day - 1` is modelled exactly:

- `None` and `0` are falsy.
- The loop starts at `t = 1`, so a shock day of 1 never fires.
- Only shock days `2..days` reach a row, and that row is `shock_day - 1`.

## Model

| member | source | states |
|---|---|---|
| PricePaths.SimulatePricePaths | monte_carlo.py:4-37 | fails exactly when `days < 1` or `sims < 0`, with `NegativeDimension` for a negative size and `NoFirstRow` for zero days; otherwise a fresh `days x sims` matrix whose row 0 is `S0`, whose every entry is `Price(t, j)`, and whose row `t` is row `t-1` times the growth factors, times `1 + shock_size/100` exactly when the guard fires |
| PricePaths.Price | monte_carlo.py:27-35 | the entry on day `t` of trial `j`: `S0` on day 0, and on later days the previous day's entry times `growth(t, j)` (that is `Grown`), times the shock multiplier when the guard fires |
| PricePaths.Grown | monte_carlo.py:31 | the entry on day `t` before any shock: the previous day's entry times `growth(t, j)` |
| PricePaths.ShockApplies | monte_carlo.py:34 | the guard `shock_day and t == shock_day - 1`: a shock day is given, it is not 0, and `t` is one below it |
| PricePaths.ShockMultiplier | monte_carlo.py:35 | the factor `1 + shock_size/100`: positive exactly when the shock is above -100%, zero exactly at -100%, one exactly for a zero shock |
| PricePaths.GrowRow | monte_carlo.py:31 | row `t` becomes the previous row times the growth factors, cell by cell; every other row is unchanged |
| PricePaths.ScaleRow | monte_carlo.py:35 | row `t` is multiplied in place by the shock multiplier; every other row is unchanged |
| PricePaths.ShockedRow | monte_carlo.py:29-34 | on every loop day `t` the guard fires exactly when `t` is the returned row; that row is `shock_day - 1`, in `1..days-1`; there is none exactly when the day is `None`, below 2 or past `days` |
| PricePaths.ShockScalesFromShockedRow | monte_carlo.py:29-35 | the shocked prices equal the unshocked prices before the shocked row, and the unshocked prices times the multiplier from that row on |
| PricePaths.UnshockedOutsideRange | monte_carlo.py:34 | a shock day of `None`, 0, 1 or past `days` leaves every row as it is without a shock |
| PricePaths.NoShockIgnoresSize | monte_carlo.py:34 | without a shock day, the shock size has no effect |
| PricePaths.ShockedRowScaled | monte_carlo.py:34-35 | the shocked row is its unshocked value times `1 + shock_size/100`, and every earlier row is unshocked |
| PricePaths.PricesPositive | monte_carlo.py:27-35 | with `S0 > 0`, positive growth factors and a shock above -100%, every price is positive |
| PricePaths.WipedOutByFullShock | monte_carlo.py:35 | a -100% shock makes the shocked row and every later row zero |
| PricePaths.IdenticalColumns | monte_carlo.py:29-31 | when each day's growth factor is the same in every trial (sigma = 0), all trials follow the same path |
| PricePaths.FlatWithoutDrift | monte_carlo.py:27-31 | with every growth factor 1 (mu = sigma = 0) and no shock, every price stays `S0` |
| Reductions.Mean | monte_carlo.py:46 | `np.mean`: the sum of the sample divided by its length |
| Reductions.Variance | app.py:184 | the square of `.std()`: numpy's population variance (`ddof=0`), the mean squared deviation from the mean |
| Reductions.Sort | monte_carlo.py:47-49 | the sorted copy that median and percentile read is sorted and a permutation (multiset equality) of the row |
| Reductions.MeanBounds | monte_carlo.py:46 | the mean lies between the smallest and the largest value |
| Reductions.MeanOfConstant | monte_carlo.py:46 | the mean of a sample whose values all equal `c` is `c` |
| Reductions.VarianceZero | app.py:184 | the population variance is non-negative, and it is zero exactly when all values are equal |
| PriceStatistics.Interpolate | monte_carlo.py:48-49 | linear interpolation at virtual index `h` lies between the order statistics at `floor(h)` and `floor(h)+1`, and at the last index it is the last value |
| PriceStatistics.InterpolateMonotone | monte_carlo.py:48-49 | interpolation over a sorted sample never decreases as the index grows |
| PriceStatistics.VirtualIndex | monte_carlo.py:48-49 | the index `(n-1)*p/100` lies between the first and the last position |
| PriceStatistics.VirtualIndexMonotone | monte_carlo.py:48-49 | a higher percentile never has a smaller index |
| PriceStatistics.Percentile | monte_carlo.py:48-49 | `np.percentile` with the default linear method: interpolation over the sorted row at virtual index `(n-1)*p/100` |
| PriceStatistics.PercentileBounds | monte_carlo.py:48-49 | `min <= percentile(p) <= percentile(q) <= max` for `p <= q` |
| PriceStatistics.Median | monte_carlo.py:47 | `np.median`: the middle value of the sorted row for odd length, the mean of the two middle values for even length |
| PriceStatistics.MedianIsFiftiethPercentile | monte_carlo.py:47 | the median (middle value, or the mean of the two middle values) equals the 50th percentile |
| PriceStatistics.StatisticsOf | monte_carlo.py:45-50 | `min <= p5 <= median <= p95 <= max` and `min <= mean <= max`; with one price, all four equal it |
| PriceStatistics.FinalRow | monte_carlo.py:44 | `paths[-1]`: one price per trial, taken from the last row |
| PriceStatistics.GetPriceStatistics | monte_carlo.py:40-51 | fails exactly on a matrix without rows or without trials; otherwise the ordering and mean bounds over the last row, and all four values equal the single price when there is one trial |
| PriceStatistics.OnlyFinalRowMatters | monte_carlo.py:44 | two matrices with the same last row have the same statistics |
| TimeToTarget.Where | monte_carlo.py:63 | `np.where(col >= target)[0]`: strictly increasing indices, each in range and at or above the target, covering every such index; all entries before the first one are below the target |
| TimeToTarget.FirstHit | monte_carlo.py:63-65 | `Some(d)`: entry `d` is at or above the target and every earlier entry is below it; `None` exactly when every entry is below it |
| TimeToTarget.Column | monte_carlo.py:63 | `paths[:, sim]`: the trial's price on each day |
| TimeToTarget.FirstHits | monte_carlo.py:62-65 | the first hit of every trial, in trial order |
| TimeToTarget.Present | monte_carlo.py:61-66 | the contents of `hit_days` after the loop: the days of the trials that hit, in trial order, with misses dropped |
| TimeToTarget.HitTrials | monte_carlo.py:61-66 | the trial behind each reported day: strictly increasing trial indices, the `k`-th of which is a trial whose first hit is the `k`-th reported day, covering every trial that hits |
| TimeToTarget.PresentCount | monte_carlo.py:61-66 | never more entries than trials; one entry per trial exactly when every trial hits, and then entry `k` is trial `k`'s hit day |
| TimeToTarget.PresentStep | monte_carlo.py:62-65 | one more iteration of the loop appends the trial's hit day when it hits, and nothing when it misses |
| TimeToTarget.PresentOfMisses | monte_carlo.py:64-66 | trials that never hit contribute nothing |
| TimeToTarget.PresentBounded | monte_carlo.py:64-66 | a bound on every hit day bounds every reported day |
| TimeToTarget.TimeToTarget | monte_carlo.py:54-66 | the result is the first hit days of the trials that reach the target, in trial order and with misses dropped; at most one per trial, each a day of the simulation |
| TimeToTarget.TargetAtStart | monte_carlo.py:60-66 | a target at or below every starting price gives day 0 for every trial |
| TimeToTarget.TargetUnreachable | monte_carlo.py:60-66 | a target above every price gives an empty result |
| TimeToTarget.FirstCrossingExample | monte_carlo.py:63-65 | a one-trial matrix whose column is `[100, 90, 110, 120]`, with target 105, gives `[2]` |
| Dashboard.ArrowOf | app.py:138-144 | up and green exactly when the forecast is above the current price, down and red exactly when below, level and grey exactly when equal; the delta is the forecast minus the current price in every branch |
| Dashboard.ArrowAntisymmetric | app.py:138-144 | swapping the forecast and the current price swaps up and down, keeps level, and negates the delta |
| Dashboard.SimReturns | app.py:182 | one return per trial: the final price's gain over the current price, relative to the current price |
| Dashboard.ExpectedReturn | app.py:183 | `sim_returns.mean() * 100`: the mean simple return in percent |
| Dashboard.SumOfReturns | app.py:182-183 | the returns add up to the total gain over the current price, divided by the current price |
| Dashboard.ExpectedReturnOfMeanPrice | app.py:181-183 | the expected return is `100 * (mean(final) - current) / current` |
| Dashboard.IsDeviation | app.py:184 | `sim_returns.std()`: a non-negative number whose square is numpy's population (`ddof=0`) variance of the returns |
| Dashboard.SharpeRatio | app.py:184 | the mean return over the standard deviation, or 0 when the deviation is 0 |
| Dashboard.SharpeGuard | app.py:184 | the deviation is zero exactly when all final prices are equal; the Sharpe ratio is then 0, and otherwise it is the mean return over the deviation |
| Dashboard.SharpeSign | app.py:184 | with a positive current price and a non-zero deviation, the Sharpe ratio is positive exactly when the mean final price is above the current price, and negative exactly when below |

## Left out

- `data.py` is not part of this model: it downloads prices over the network and computes log returns with pandas.
- The Streamlit page, CSS, widgets, HTML cards and Plotly charts in `app.py` are presentation, and so are the per-row percentile bands of the chart (app.py:196-198).
- The estimate of `mu` and `sigma` from historical returns (app.py:112-113) depends on fetched data and floating reductions.
- `np.random.standard_normal` and the global random state, `np.exp` and `np.sqrt`: the growth factors are a parameter and no distributional claim about GBM is made.
- Floating-point rounding, overflow and NaN: all arithmetic is over exact reals.
- Dashboard.SharpeGuard: the standard deviation is a parameter whose square is the variance; the square root itself is not computed.
- Dashboard.SimReturns: requires a non-zero current price; Python would produce infinities or NaN at zero, which exact reals cannot represent.
- PriceStatistics.GetPriceStatistics: numpy has no real number to give for the statistics of an empty last row (NaN or an exception); the model reports the single `NoPrices` failure instead.
