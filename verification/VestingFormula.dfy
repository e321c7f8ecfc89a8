/** The vesting formula: exact on every accepted schedule, bounded and nondecreasing. */
module VestingFormula {
  import opened Host
  import opened VestingModel

  /** What `initialize` demands of a schedule. */
  predicate ValidSchedule(s: Storage) {
    && 0 < s.totalAmount <= MAX_TOTAL_AMOUNT
    && s.startLedger <= s.cliffLedger < s.endLedger
  }

  lemma MulMonotone(a: nat, b: nat, x: nat, y: nat)
    requires a <= x && b <= y
    ensures 0 <= a * b <= x * y
  {
    assert a * b <= x * b <= x * y;
  }

  /** `q` is at most the quotient as soon as `d * q` is at most the dividend. */
  lemma QuotientIsGreatest(b: int, d: int, q: int)
    requires 0 < d && d * q <= b
    ensures q <= b / d
  {
    var r := b / d;
    assert b == d * r + b % d;
    if q > r {
      MulLeft(d, r + 1, q);
      assert false;
    }
  }

  lemma MulLeft(d: int, x: int, y: int)
    requires 0 < d && x <= y
    ensures d * x <= d * y
  {
  }

  lemma DivMonotone(a: int, b: int, d: int)
    requires 0 < d && a <= b
    ensures a / d <= b / d
  {
    assert a == d * (a / d) + a % d;
    QuotientIsGreatest(b, d, a / d);
  }

  lemma ProportionBounded(total: nat, elapsed: nat, d: nat)
    requires 0 < d && elapsed <= d
    ensures 0 <= total * elapsed / d <= total
  {
    MulMonotone(total, elapsed, total, d);
    DivMonotone(0, total * elapsed, d);
    DivMonotone(total * elapsed, total * d, d);
    assert total * d / d == total;
  }

  /** The `checked_mul` in `initialize` adds nothing to the ceiling, for every possible duration. */
  lemma CeilingCoversEveryDuration(totalAmount: nat, elapsed: u32)
    requires totalAmount <= MAX_TOTAL_AMOUNT
    ensures 0 <= totalAmount * elapsed <= I128_MAX
  {
    MulMonotone(totalAmount, elapsed, MAX_TOTAL_AMOUNT, U32_MAX);
    assert MAX_TOTAL_AMOUNT * 4_294_967_295 <= I128_MAX;
  }

  /** The ceiling is the largest with that property: one more unit overflows on the longest schedule. */
  lemma CeilingIsTight(totalAmount: int)
    requires totalAmount > MAX_TOTAL_AMOUNT
    ensures totalAmount * U32_MAX > I128_MAX
  {
    assert totalAmount * U32_MAX >= (MAX_TOTAL_AMOUNT + 1) * U32_MAX;
    assert (MAX_TOTAL_AMOUNT + 1) * 4_294_967_295 > I128_MAX;
  }

  predicate SameSchedule(s: Storage, t: Storage) {
    && s.totalAmount == t.totalAmount && s.startLedger == t.startLedger
    && s.cliffLedger == t.cliffLedger && s.endLedger == t.endLedger
  }

  lemma LinearOfSchedule(s: Storage, t: Storage, ledger: int)
    requires SameSchedule(s, t)
    ensures Linear(s, ledger) == Linear(t, ledger)
  {
  }

  /** Between the cliff and the end, `Linear` is the floor of the exact proportion. */
  lemma LinearIsFloor(s: Storage, ledger: int)
    requires ValidSchedule(s) && s.cliffLedger <= ledger < s.endLedger
    ensures
      var d := s.endLedger - s.startLedger;
      var exact := s.totalAmount * (ledger - s.startLedger);
      Linear(s, ledger) * d <= exact < (Linear(s, ledger) + 1) * d
  {
    var d := s.endLedger - s.startLedger;
    var exact := s.totalAmount * (ledger - s.startLedger);
    assert exact == d * (exact / d) + exact % d;
  }

  lemma LinearBounded(s: Storage, ledger: int)
    requires ValidSchedule(s)
    ensures 0 <= Linear(s, ledger) <= s.totalAmount
    ensures ledger <= s.startLedger ==> Linear(s, ledger) == 0
    ensures ledger >= s.endLedger ==> Linear(s, ledger) == s.totalAmount
  {
    if s.cliffLedger <= ledger < s.endLedger {
      ProportionBounded(s.totalAmount, ledger - s.startLedger, s.endLedger - s.startLedger);
    }
  }

  /** Vesting never goes backwards: not across the cliff jump, not across the end. */
  lemma LinearMonotone(s: Storage, earlier: int, later: int)
    requires ValidSchedule(s) && earlier <= later
    ensures Linear(s, earlier) <= Linear(s, later)
  {
    LinearBounded(s, earlier);
    LinearBounded(s, later);
    if s.cliffLedger <= earlier && later < s.endLedger {
      var total, e, l := s.totalAmount, earlier - s.startLedger, later - s.startLedger;
      MulMonotone(total, e, total, l);
      DivMonotone(total * e, total * l, s.endLedger - s.startLedger);
    }
  }

  /** On an accepted schedule the checked i128 computation is the exact formula and never errs. */
  lemma ComputeVestedIsLinear(s: Storage, ledger: u32)
    requires ValidSchedule(s) && !s.revoked
    ensures ComputeVested(s, ledger) == Ok(Linear(s, ledger))
  {
    LinearBounded(s, ledger);
    if s.cliffLedger <= ledger < s.endLedger {
      CeilingCoversEveryDuration(s.totalAmount, ledger - s.startLedger);
    }
  }

  /** `initialize` accepts exactly these, and names each obstacle; in particular the product check never decides. */
  lemma InitializeAcceptsIff(w: World, signers: Signers, t: Terms, accepts: bool)
    ensures
      var o := Initialize(w, signers, t, accepts);
      var usable := w.wallet.beneficiary.None? && t.beneficiary != Zero;
      var ordered := w.ledger <= t.startLedger <= t.cliffLedger < t.endLedger;
      && (o.Ok? <==> && usable && 0 < t.totalAmount <= MAX_TOTAL_AMOUNT && ordered
                     && t.admin in signers && accepts && t.totalAmount <= Balance(w.book, t.admin))
      && (o == Err(AlreadyInitialized) <==> w.wallet.beneficiary.Some?)
      && (o == Err(InvalidInput) <==> w.wallet.beneficiary.None? && t.beneficiary == Zero)
      && (o == Err(TotalAmountTooLarge) <==> usable && ordered && t.totalAmount > MAX_TOTAL_AMOUNT)
      && (o.Err? ==> o.error.AlreadyInitialized? || o.error.InvalidInput? || o.error.TotalAmountTooLarge?)
  {
    if 0 < t.totalAmount <= MAX_TOTAL_AMOUNT && t.startLedger <= t.endLedger {
      CeilingCoversEveryDuration(t.totalAmount, t.endLedger - t.startLedger);
    }
  }

  /**
   The documented schedule, read off the arguments of an accepted `initialize`: nothing before
   the cliff, everything from the end, the floored proportion from the start in between.
   */
  lemma InitializeFixesSchedule(w: World, signers: Signers, t: Terms, accepts: bool, ledger: u32)
    requires Initialize(w, signers, t, accepts).Ok? && w.wallet == EMPTY_STORAGE
    ensures
      var s := Initialize(w, signers, t, accepts).value.1.wallet;
      && ComputeVested(s, ledger) == Ok(Linear(s, ledger))
      && (ledger < t.cliffLedger ==> Linear(s, ledger) == 0)
      && (ledger >= t.endLedger ==> Linear(s, ledger) == t.totalAmount)
      && (t.cliffLedger <= ledger < t.endLedger ==>
            var d, exact := t.endLedger - t.startLedger, t.totalAmount * (ledger - t.startLedger);
            Linear(s, ledger) * d <= exact < (Linear(s, ledger) + 1) * d)
      && s.beneficiary == Some(t.beneficiary) && s.admin == s.funder == t.admin
      && s.revocable == t.revocable && !s.revoked && s.releasedAmount == 0 && s.releaseCount == 0
      && Initialize(w, signers, t, accepts).value.1.ledger == w.ledger
  {
    var s := Initialize(w, signers, t, accepts).value.1.wallet;
    ComputeVestedIsLinear(s, ledger);
    if t.cliffLedger <= ledger < t.endLedger {
      LinearIsFloor(s, ledger);
    }
  }
}
