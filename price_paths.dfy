/** The path matrix built by `simulate_price_paths` (monte_carlo.py:4-37).

    Row 0 of a `days x sims` matrix holds the current price; each later row
    is the previous row times a per-cell growth factor, and one row may in
    addition be multiplied by a shock. The normal draws and `np.exp` are not
    modelled: the growth factor of day `t` and trial `j`, which the source
    computes as exp((mu - sigma^2/2) + sigma * z), is the injected value
    `growth(t, j)`. */
module PricePaths {
  import opened Outcomes
  import opened Reductions

  /** The exceptions numpy raises before any price is written. */
  datatype SimulationError =
    | NegativeDimension   // np.zeros((days, sims)) with a negative size
    | NoFirstRow          // paths[0] = S0 on a matrix without rows

  /** The optional shock: `size` in percent, `day` 1-indexed, `None` when absent. */
  datatype Shock = Shock(size: real, day: Option<int>)

  const NoShock := Shock(0.0, None)

  /** The guard of monte_carlo.py:34, `shock_day and t == shock_day - 1`:
      `None` and `0` are falsy, every other day is compared with `t + 1`. */
  predicate ShockApplies(shock: Shock, t: int)
  {
    shock.day.Some? && shock.day.value != 0 && t == shock.day.value - 1
  }

  /** The factor of monte_carlo.py:35, `1 + shock_size / 100`. */
  function ShockMultiplier(shock: Shock): (m: real)
    ensures m > 0.0 <==> shock.size > -100.0
    ensures m == 0.0 <==> shock.size == -100.0
    ensures m == 1.0 <==> shock.size == 0.0
  {
    1.0 + shock.size / 100.0
  }

  /** The row a shock lands on in a matrix of `days` rows. The loop visits
      rows 1 to days-1 only, so a shock day of 1 (row 0), 0, `None`, a
      negative day or a day past `days` never fires; exactly the days
      2..days do, each on the row one below it. */
  function ShockedRow(shock: Shock, days: int): (row: Option<nat>)
    ensures forall t :: 1 <= t < days ==> (ShockApplies(shock, t) <==> row == Some(t))
    ensures row.Some? ==> 1 <= row.value < days && shock.day.Some? && row.value == shock.day.value - 1
    ensures row.None? <==> shock.day.None? || shock.day.value < 2 || days < shock.day.value
  {
    if shock.day.Some? && 2 <= shock.day.value <= days then Some(shock.day.value - 1) else None
  }

  /** The price of trial `j` on day `t` as the loop of monte_carlo.py:29-35
      leaves it: the previous day's price times the growth factor, times the
      shock multiplier on the shocked row. */
  function Price(s0: real, growth: (nat, nat) -> real, shock: Shock, t: nat, j: nat): real
    decreases t, 1
  {
    if t == 0 then s0
    else if ShockApplies(shock, t) then Grown(s0, growth, shock, t, j) * ShockMultiplier(shock)
    else Grown(s0, growth, shock, t, j)
  }

  /** The price of line 31, before the shock of line 35 is applied. */
  function Grown(s0: real, growth: (nat, nat) -> real, shock: Shock, t: nat, j: nat): real
    requires t >= 1
    decreases t, 0
  {
    Price(s0, growth, shock, t - 1, j) * growth(t, j)
  }

  /** `simulate_price_paths`: allocates the zero matrix, writes row 0 and
      fills rows 1..days-1 one after the other, multiplying the shocked row
      in place after it is computed. */
  method SimulatePricePaths(s0: real, days: int, sims: int, growth: (nat, nat) -> real, shock: Shock)
    returns (result: Result<array2<real>, SimulationError>)
    ensures result.Failure? <==> days < 1 || sims < 0
    ensures result.Failure? ==>
      result.error == if days < 0 || sims < 0 then NegativeDimension else NoFirstRow
    ensures result.Success? ==>
      fresh(result.value) && result.value.Length0 == days && result.value.Length1 == sims
    ensures result.Success? ==>
      forall j :: 0 <= j < sims ==> result.value[0, j] == s0
    ensures result.Success? ==>
      forall t, j :: 0 <= t < days && 0 <= j < sims ==> result.value[t, j] == Price(s0, growth, shock, t, j)
    ensures result.Success? ==>
      forall t, j :: 1 <= t < days && 0 <= j < sims ==>
        result.value[t, j] == result.value[t - 1, j] * growth(t, j) * (if ShockApplies(shock, t) then ShockMultiplier(shock) else 1.0)
  {
    if days < 0 || sims < 0 {
      return Failure(NegativeDimension);
    }
    var paths := new real[days, sims]((_, _) => 0.0);
    if days == 0 {
      return Failure(NoFirstRow);
    }
    for j := 0 to sims
      invariant forall k :: 0 <= k < j ==> paths[0, k] == s0
    {
      paths[0, j] := s0;
    }
    for t := 1 to days
      invariant forall u, k :: 0 <= u < t && 0 <= k < sims ==> paths[u, k] == Price(s0, growth, shock, u, k)
    {
      GrowRow(paths, t, growth);
      if ShockApplies(shock, t) {
        ScaleRow(paths, t, ShockMultiplier(shock));
      }
      forall k | 0 <= k < sims
        ensures paths[t, k] == Price(s0, growth, shock, t, k)
      {
      }
    }
    forall t, j | 1 <= t < days && 0 <= j < sims
      ensures paths[t, j] == paths[t - 1, j] * growth(t, j) * (if ShockApplies(shock, t) then ShockMultiplier(shock) else 1.0)
    {
    }
    return Success(paths);
  }

  /** Line 31 for one day `t`: every trial's price is the previous day's
      price times its growth factor; no other row changes. */
  method GrowRow(paths: array2<real>, t: nat, growth: (nat, nat) -> real)
    requires 1 <= t < paths.Length0
    modifies paths
    ensures forall k :: 0 <= k < paths.Length1 ==> paths[t, k] == old(paths[t - 1, k]) * growth(t, k)
    ensures forall u, k :: 0 <= u < paths.Length0 && u != t && 0 <= k < paths.Length1 ==> paths[u, k] == old(paths[u, k])
  {
    for j := 0 to paths.Length1
      invariant forall k :: 0 <= k < j ==> paths[t, k] == old(paths[t - 1, k]) * growth(t, k)
      invariant forall u, k :: 0 <= u < paths.Length0 && u != t && 0 <= k < paths.Length1 ==> paths[u, k] == old(paths[u, k])
    {
      paths[t, j] := paths[t - 1, j] * growth(t, j);
    }
  }

  /** Line 35: row `t` multiplied in place by `m`; no other row changes. */
  method ScaleRow(paths: array2<real>, t: nat, m: real)
    requires t < paths.Length0
    modifies paths
    ensures forall k :: 0 <= k < paths.Length1 ==> paths[t, k] == old(paths[t, k]) * m
    ensures forall u, k :: 0 <= u < paths.Length0 && u != t && 0 <= k < paths.Length1 ==> paths[u, k] == old(paths[u, k])
  {
    for j := 0 to paths.Length1
      invariant forall k :: 0 <= k < j ==> paths[t, k] == old(paths[t, k]) * m
      invariant forall k :: j <= k < paths.Length1 ==> paths[t, k] == old(paths[t, k])
      invariant forall u, k :: 0 <= u < paths.Length0 && u != t && 0 <= k < paths.Length1 ==> paths[u, k] == old(paths[u, k])
    {
      paths[t, j] := paths[t, j] * m;
    }
  }

  /** Against the same growth factors, a shocked matrix equals the unshocked
      one up to the shocked row and the unshocked one times the multiplier
      from that row on: the shock multiplies its own row only, and later rows
      inherit it through the recurrence. */
  lemma {:induction false} ShockScalesFromShockedRow(s0: real, growth: (nat, nat) -> real, shock: Shock, t: nat, j: nat)
    ensures Price(s0, growth, shock, t, j) ==
      Price(s0, growth, Shock(shock.size, None), t, j) *
      (if shock.day.Some? && 2 <= shock.day.value <= t + 1 then ShockMultiplier(shock) else 1.0)
  {
    if t > 0 {
      ShockScalesFromShockedRow(s0, growth, shock, t - 1, j);
    }
  }

  /** A shock day of `None`, 0, 1, a negative day or one past `days` leaves
      every row of the matrix as it is without a shock. */
  lemma UnshockedOutsideRange(s0: real, growth: (nat, nat) -> real, shock: Shock, days: int, t: nat, j: nat)
    requires ShockedRow(shock, days) == None
    requires t < days
    ensures Price(s0, growth, shock, t, j) == Price(s0, growth, NoShock, t, j)
  {
    ShockScalesFromShockedRow(s0, growth, shock, t, j);
    NoShockIgnoresSize(s0, growth, shock.size, t, j);
  }

  /** Without a shock day the shock size plays no part. */
  lemma {:induction false} NoShockIgnoresSize(s0: real, growth: (nat, nat) -> real, size: real, t: nat, j: nat)
    ensures Price(s0, growth, Shock(size, None), t, j) == Price(s0, growth, NoShock, t, j)
  {
    if t > 0 {
      NoShockIgnoresSize(s0, growth, size, t - 1, j);
    }
  }

  /** With shock day `d` in 2..days, row d-1 is the unshocked row d-1 times
      `1 + shock_size / 100`, and every earlier row is unshocked. */
  lemma ShockedRowScaled(s0: real, growth: (nat, nat) -> real, shock: Shock, days: int, t: nat, j: nat)
    requires ShockedRow(shock, days).Some?
    ensures var row := ShockedRow(shock, days).value;
      Price(s0, growth, shock, row, j) == Price(s0, growth, NoShock, row, j) * ShockMultiplier(shock)
    ensures t < ShockedRow(shock, days).value ==>
      Price(s0, growth, shock, t, j) == Price(s0, growth, NoShock, t, j)
  {
    var row := ShockedRow(shock, days).value;
    ShockScalesFromShockedRow(s0, growth, shock, row, j);
    ShockScalesFromShockedRow(s0, growth, shock, t, j);
    NoShockIgnoresSize(s0, growth, shock.size, row, j);
    NoShockIgnoresSize(s0, growth, shock.size, t, j);
  }

  /** With a positive current price, positive growth factors and a shock
      above -100%, every price is positive. */
  lemma {:induction false} PricesPositive(s0: real, growth: (nat, nat) -> real, shock: Shock, t: nat, j: nat)
    requires s0 > 0.0
    requires forall u, k :: growth(u, k) > 0.0
    requires shock.size > -100.0
    ensures Price(s0, growth, shock, t, j) > 0.0
  {
    if t > 0 {
      PricesPositive(s0, growth, shock, t - 1, j);
      var grown := Price(s0, growth, shock, t - 1, j) * growth(t, j);
      ProductPositive(Price(s0, growth, shock, t - 1, j), growth(t, j));
      ProductPositive(grown, ShockMultiplier(shock));
    }
  }

  /** A shock of exactly -100% wipes the shocked row out, and every later
      row with it: the source does not guard against this. */
  lemma WipedOutByFullShock(s0: real, growth: (nat, nat) -> real, shock: Shock, days: int, t: nat, j: nat)
    requires shock.size == -100.0
    requires ShockedRow(shock, days).Some? && ShockedRow(shock, days).value <= t
    ensures Price(s0, growth, shock, t, j) == 0.0
  {
    ShockScalesFromShockedRow(s0, growth, shock, t, j);
  }

  /** When every day's growth factor is the same in all trials (sigma = 0),
      all trials follow the same path. */
  lemma {:induction false} IdenticalColumns(s0: real, growth: (nat, nat) -> real, shock: Shock, t: nat, j: nat, k: nat)
    requires forall u, a, b :: growth(u, a) == growth(u, b)
    ensures Price(s0, growth, shock, t, j) == Price(s0, growth, shock, t, k)
  {
    if t > 0 {
      IdenticalColumns(s0, growth, shock, t - 1, j, k);
      assert growth(t, j) == growth(t, k);
    }
  }

  /** With mu = 0 and sigma = 0 every growth factor is exp(0) = 1, and
      without a shock every price stays at the current price. */
  lemma {:induction false} FlatWithoutDrift(s0: real, growth: (nat, nat) -> real, t: nat, j: nat)
    requires forall u, k :: growth(u, k) == 1.0
    ensures Price(s0, growth, NoShock, t, j) == s0
  {
    if t > 0 {
      FlatWithoutDrift(s0, growth, t - 1, j);
    }
  }
}
