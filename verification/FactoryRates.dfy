/** Conversion of a daily rate into the pool's per-ledger credit rate. */
module FactoryRates {
  import opened Host
  import opened FactoryTypes

  const LEDGERS_PER_DAY: int := 17_280
  const MAX_CREDIT_RATE: int := 100_000_000
  const MAX_DAILY_RATE: int := MAX_CREDIT_RATE * LEDGERS_PER_DAY

  function DivCeil(x: nat, y: nat): nat
    requires y > 0
  {
    if x % y == 0 then x / y else x / y + 1
  }

  function DailyRateToCreditRate(dailyRate: u128): Outcome<i128, Error> {
    if dailyRate == 0 then Err(InvalidCreditRate)
    else
      var perLedger := DivCeil(dailyRate, LEDGERS_PER_DAY);
      if !FitsI128(perLedger) then Err(InvalidCreditRate)
      else if perLedger > MAX_CREDIT_RATE then Err(InvalidCreditRate)
      else Ok(perLedger)
  }

  /**
   The conversion succeeds exactly on 1..MAX_DAILY_RATE and yields the least per-ledger rate
   whose daily total reaches the request, overshooting by less than one day of ledgers.
   */
  lemma ConversionIsLeastCover(dailyRate: u128)
    ensures DailyRateToCreditRate(dailyRate).Ok? <==> 1 <= dailyRate <= MAX_DAILY_RATE
    ensures DailyRateToCreditRate(dailyRate).Ok? ==>
              var rate := DailyRateToCreditRate(dailyRate).value;
              && 1 <= rate <= MAX_CREDIT_RATE
              && dailyRate <= rate * LEDGERS_PER_DAY < dailyRate + LEDGERS_PER_DAY
              && forall r: int :: r * LEDGERS_PER_DAY >= dailyRate ==> rate <= r
  {
    var q, m := dailyRate / LEDGERS_PER_DAY, dailyRate % LEDGERS_PER_DAY;
    assert dailyRate == LEDGERS_PER_DAY * q + m;
  }

  /** The cast to i128 never decides: the rounded quotient of any u128 fits. */
  lemma CastNeverFails(dailyRate: u128)
    ensures FitsI128(DivCeil(dailyRate, LEDGERS_PER_DAY))
  {
  }

  lemma ConversionIsMonotone(a: u128, b: u128)
    requires a <= b && DailyRateToCreditRate(a).Ok? && DailyRateToCreditRate(b).Ok?
    ensures DailyRateToCreditRate(a).value <= DailyRateToCreditRate(b).value
  {
    ConversionIsLeastCover(a);
    ConversionIsLeastCover(b);
  }

  /** The bounds `create_pool_inner` checks before and after the conversion reject nothing more. */
  lemma SurroundingChecksAreImplied(dailyRate: u128)
    ensures
      var converted := DailyRateToCreditRate(dailyRate);
      converted.Ok? <==> && dailyRate <= MAX_DAILY_RATE && converted.Ok?
                         && !(converted.value <= 0 || converted.value > MAX_CREDIT_RATE)
  {
    ConversionIsLeastCover(dailyRate);
  }
}
