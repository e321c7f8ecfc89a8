/** The promises of the vesting wallet, each over every run from deployment. */
module VestingTheorems {
  import opened Host
  import opened VestingModel
  import opened VestingFormula
  import opened VestingRuns

  /** `h` is reached by some run of a wallet that was deployed holding `opening` tokens. */
  ghost predicate Reachable(h: History, opening: nat) {
    exists hs: seq<History>, calls: seq<Call> ::
      Execution(hs, calls) && Balance(hs[0].world.book, Self) == opening && hs[|calls|] == h
  }

  lemma ReachableStart(w: World)
    requires Deployment(w)
    ensures Reachable(History(w, None, false, 0), Balance(w.book, Self))
  {
    var hs, calls: seq<Call> := [History(w, None, false, 0)], [];
    assert Execution(hs, calls) && hs[|calls|] == History(w, None, false, 0);
  }

  lemma ReachableStep(h: History, opening: nat, c: Call)
    requires Reachable(h, opening)
    ensures Reachable(Track(h, c), opening)
  {
    var hs: seq<History>, calls: seq<Call> :|
      Execution(hs, calls) && Balance(hs[0].world.book, Self) == opening && hs[|calls|] == h;
    var hs', calls' := hs + [Track(h, c)], calls + [c];
    assert Execution(hs', calls') && hs'[|calls'|] == Track(h, c);
  }

  lemma ReachableInv(h: History, opening: nat)
    requires Reachable(h, opening)
    ensures Inv(h, opening)
  {
    var hs: seq<History>, calls: seq<Call> :|
      Execution(hs, calls) && Balance(hs[0].world.book, Self) == opening && hs[|calls|] == h;
    ExecutionsKeepInv(hs, calls, |calls|);
  }

  /** Everything that entered the wallet is still there, was paid out, was refunded, or was drained. */
  lemma Conservation(h: History, opening: nat)
    requires Reachable(h, opening)
    ensures
      var s, log := h.world.wallet, h.world.book.log;
      && opening + s.totalAmount + Moved(log).donation
         == Balance(h.world.book, Self) + s.releasedAmount + Moved(log).refund + Moved(log).drain
      && s.totalAmount == Moved(log).funding
      && s.releasedAmount == Moved(log).payout && s.releaseCount == Moved(log).payouts
      && forall t :: t in log ==> WellDirected(t, s.funder)
  {
    ReachableInv(h, opening);
  }

  /** Until an emergency withdrawal, the wallet holds what it still owes plus every unsolicited token. */
  lemma Solvency(h: History, opening: nat)
    requires Reachable(h, opening) && !h.drained
    ensures
      var s := h.world.wallet;
      var entitlement := if s.revoked then s.revokedVested else s.totalAmount;
      && 0 <= s.releasedAmount <= entitlement
      && Balance(h.world.book, Self)
         == entitlement - s.releasedAmount + opening + Moved(h.world.book.log).donation
      && Moved(h.world.book.log).donation >= 0
  {
    ReachableInv(h, opening);
    DonationsNonNegative(h.world.book.log, h.world.wallet.funder);
    if Active(h) {
      VestedInActive(h);
      LinearBounded(h.world.wallet, h.paidThrough);
      LinearBounded(h.world.wallet, VestingLedger(h));
    }
  }

  /** Exactly `amount` went from one party to another, and nobody else's holdings changed. */
  ghost predicate Delivered(b: Book, b': Book, src: Address, dst: Address, amount: int) {
    && Balance(b', src) == Balance(b, src) - amount
    && Balance(b', dst) == Balance(b, dst) + amount
    && forall a :: a != src && a != dst ==> Balance(b', a) == Balance(b, a)
  }

  /** What a release pays: everything vested by now and not yet paid; nothing after an emergency withdrawal. */
  function Due(h: History): int {
    if h.drained then 0 else Linear(h.world.wallet, VestingLedger(h)) - h.world.wallet.releasedAmount
  }

  /** The wallet after a release of `paid`: only the released amount and, if anything was paid, the count moved. */
  predicate CountedRelease(before: Storage, after: Storage, paid: int) {
    && after == before.(releasedAmount := after.releasedAmount, releaseCount := after.releaseCount)
    && after.releasedAmount == before.releasedAmount + paid
    && after.releaseCount == before.releaseCount + (if paid > 0 then 1 else 0)
  }

  /** `release` never reports `InsufficientBalance` or an overflow: only a signature or the token can stop it. */
  lemma ReleaseSucceedsIff(h: History, opening: nat, signers: Signers, accepts: bool)
    requires Reachable(h, opening)
    ensures
      var s := h.world.wallet;
      var o := Release(h.world, signers, accepts);
      && (o.Err? ==> o.error == NotInitialized)
      && (o.Err? <==> s.beneficiary.None?)
      && (o.Ok? <==> s.beneficiary.Some? && s.beneficiary.value in signers && (accepts || Due(h) == 0))
      && (o.Ok? ==> && o.value.0 == Due(h) >= 0
                    && Delivered(h.world.book, o.value.1.book, Self, s.beneficiary.value, Due(h))
                    && o.value.1.ledger == h.world.ledger
                    && CountedRelease(s, o.value.1.wallet, Due(h)))
  {
    ReachableInv(h, opening);
    var s := h.world.wallet;
    if Active(h) {
      VestedInActive(h);
      LinearBounded(s, VestingLedger(h));
      LinearBounded(s, h.paidThrough);
      if !h.drained {
        Solvency(h, opening);
        if Due(h) > 0 {
          PaidReleaseAdvances(h);
        }
      }
    }
  }

  lemma PayRecorded(b: Book, t: Transfer, accepts: bool)
    requires t.amount >= 0
    ensures
      var o := Pay(b, t.src, t.dst, t.amount, t.purpose, accepts);
      o.Ok? ==> Moved(o.value.log) == Moved(b.log).Plus(t)
  {
    assert (b.log + [t])[..|b.log|] == b.log;
  }

  lemma RevokeOutcome(h: History, opening: nat, signers: Signers, accepts: bool)
    requires Inv(h, opening) && Active(h) && h.world.wallet.revocable && !h.world.wallet.revoked
    ensures
      var s := h.world.wallet;
      var o := Revoke(h.world, signers, accepts);
      var vested := Linear(s, h.world.ledger);
      && !o.Err?
      && (o.Ok? <==> s.admin in signers && (accepts || vested == s.totalAmount))
      && (o.Ok? ==> && Moved(o.value.1.book.log).refund == s.totalAmount - vested
                    && Delivered(h.world.book, o.value.1.book, Self, s.funder, s.totalAmount - vested)
                    && o.value.1.wallet.revokedVested == vested && o.value.1.ledger == h.world.ledger
                    && o.value.1.wallet == s.(revoked := true, revokedVested := o.value.1.wallet.revokedVested))
  {
    var s := h.world.wallet;
    ComputeVestedIsLinear(s, h.world.ledger);
    LinearBounded(s, h.world.ledger);
    HoldingsCoverClaims(h, opening);
    DonationsNonNegative(h.world.book.log, s.funder);
    VestedInActive(h);
    LinearBounded(s, VestingLedger(h));
    var unvested := s.totalAmount - Linear(s, h.world.ledger);
    if unvested > 0 {
      PayRecorded(h.world.book, Transfer(Self, s.funder, unvested, Refund), accepts);
    }
  }

  /** `revoke` on a revocable, unrevoked wallet is always covered: only a signature or the token can stop it. */
  lemma RevokeSucceedsIff(h: History, opening: nat, signers: Signers, accepts: bool)
    requires Reachable(h, opening)
    ensures
      var s := h.world.wallet;
      var o := Revoke(h.world, signers, accepts);
      var vested := Linear(s, h.world.ledger);
      && (o == Err(NotInitialized) <==> s.beneficiary.None?)
      && (o == Err(NotRevocable) <==> s.beneficiary.Some? && !s.revocable)
      && (o == Err(AlreadyRevoked) <==> s.beneficiary.Some? && s.revocable && s.revoked)
      && (o.Err? ==> o.error.NotInitialized? || o.error.NotRevocable? || o.error.AlreadyRevoked?)
      && (o.Ok? <==> && s.beneficiary.Some? && s.revocable && !s.revoked
                     && s.admin in signers && (accepts || vested == s.totalAmount))
      && (o.Ok? ==> && Moved(o.value.1.book.log).refund == s.totalAmount - vested
                    && Delivered(h.world.book, o.value.1.book, Self, s.funder, s.totalAmount - vested)
                    && o.value.1.wallet.revokedVested == vested && o.value.1.ledger == h.world.ledger
                    && o.value.1.wallet == s.(revoked := true, revokedVested := o.value.1.wallet.revokedVested))
  {
    ReachableInv(h, opening);
    if h.world.wallet.beneficiary.Some? && h.world.wallet.revocable && !h.world.wallet.revoked {
      RevokeOutcome(h, opening, signers, accepts);
    }
  }

  /**
   `emergency_withdraw` hands the whole balance to the admin; only a signature or the token can
   stop it. The first one takes everything still owed, to both sides, and every unsolicited token.
   */
  lemma EmergencyWithdrawSucceedsIff(h: History, opening: nat, signers: Signers, accepts: bool)
    requires Reachable(h, opening)
    ensures
      var s, held := h.world.wallet, Balance(h.world.book, Self);
      var o := EmergencyWithdraw(h.world, signers, accepts);
      && (o.Ok? <==> s.beneficiary.Some? && s.admin in signers && (accepts || held == 0))
      && (o.Err? <==> s.beneficiary.None?) && (o.Err? ==> o.error == NotInitialized)
      && (o.Ok? ==> && o.value.0 == held && Balance(o.value.1.book, Self) == 0
                    && Delivered(h.world.book, o.value.1.book, Self, s.admin, held)
                    && o.value.1.ledger == h.world.ledger
                    && o.value.1.wallet == s.(revoked := true, revokedVested := 0)
                    && var m := Moved(h.world.book.log); Moved(o.value.1.book.log) == m.(drain := m.drain + held))
      && (o.Ok? && !h.drained ==>
            held == (if s.revoked then s.revokedVested else s.totalAmount) - s.releasedAmount
                    + opening + Moved(h.world.book.log).donation)
  {
    var s, held := h.world.wallet, Balance(h.world.book, Self);
    if s.beneficiary.Some? && held > 0 {
      PayRecorded(h.world.book, Transfer(Self, s.admin, held, Drain), accepts);
    }
    if !h.drained {
      Solvency(h, opening);
    }
  }

  /** Exactly the signature of `admin` revokes (while that is possible), withdraws and hands over either role. */
  ghost predicate Controls(w: World, admin: Address, signers: Signers) {
    && (Revoke(w, signers, true).Ok? <==> w.wallet.revocable && !w.wallet.revoked && admin in signers)
    && (EmergencyWithdraw(w, signers, true).Ok? <==> admin in signers)
    && (forall a :: TransferBeneficiary(w, signers, a).Ok? <==> a != Zero && admin in signers)
    && (forall a :: TransferAdmin(w, signers, a).Ok? <==> admin in signers)
  }

  lemma AdminControls(h: History, opening: nat, signers: Signers)
    requires Reachable(h, opening) && h.world.wallet.beneficiary.Some?
    ensures Controls(h.world, h.world.wallet.admin, signers)
  {
    RevokeSucceedsIff(h, opening, signers, true);
  }

  /**
   `transfer_beneficiary` succeeds exactly with a usable address and the admin's signature. It hands
   over the whole outstanding claim, and the right to it, and nothing else: the admin keeps control.
   */
  lemma HandoverMovesClaim(h: History, opening: nat, adminSigners: Signers, newBeneficiary: Address, signers: Signers)
    requires Reachable(h, opening)
    ensures
      var s, o := h.world.wallet, TransferBeneficiary(h.world, adminSigners, newBeneficiary);
      && (o.Ok? <==> s.beneficiary.Some? && newBeneficiary != Zero && s.admin in adminSigners)
      && (o == Err(NotInitialized) <==> s.beneficiary.None?)
      && (o == Err(InvalidInput) <==> s.beneficiary.Some? && newBeneficiary == Zero)
      && (o.Ok? ==>
            var w := o.value.1;
            && w == h.world.(wallet := s.(beneficiary := Some(newBeneficiary)))
            && (Release(w, signers, true).Ok? <==> newBeneficiary in signers)
            && (Release(w, signers, true).Ok? ==>
                  && Release(w, signers, true).value.0 == Due(h)
                  && Delivered(w.book, Release(w, signers, true).value.1.book, Self, newBeneficiary, Due(h)))
            && Controls(w, s.admin, signers))
  {
    var c := CallTransferBeneficiary(adminSigners, newBeneficiary);
    var h' := Track(h, c);
    ReachableStep(h, opening, c);
    ReleaseSucceedsIff(h', opening, signers, true);
    LinearOfSchedule(h.world.wallet, h'.world.wallet, VestingLedger(h));
    if h'.world.wallet.beneficiary.Some? {
      AdminControls(h', opening, signers);
    }
  }

  /**
   `transfer_admin` succeeds exactly with the admin's signature, and hands over the admin role and
   nothing else: from then on only the new admin's signature revokes, withdraws or hands over
   again. A withdrawal goes to the new admin, while the refund of a revocation still goes to the
   original funder, and the beneficiary's claim is untouched.
   */
  lemma HandoverMovesControl(h: History, opening: nat, oldSigners: Signers, newAdmin: Address, signers: Signers)
    requires Reachable(h, opening)
    ensures
      var s, o := h.world.wallet, TransferAdmin(h.world, oldSigners, newAdmin);
      && (o.Ok? <==> s.beneficiary.Some? && s.admin in oldSigners)
      && (o.Err? <==> s.beneficiary.None?) && (o.Err? ==> o.error == NotInitialized)
      && (o.Ok? ==>
            var w := o.value.1;
            && w == h.world.(wallet := s.(admin := newAdmin))
            && Controls(w, newAdmin, signers)
            && (newAdmin in signers ==>
                  Delivered(w.book, EmergencyWithdraw(w, signers, true).value.1.book, Self, newAdmin,
                            Balance(w.book, Self)))
            && (Revoke(w, signers, true).Ok? ==>
                  Delivered(w.book, Revoke(w, signers, true).value.1.book, Self, s.funder,
                            s.totalAmount - Linear(s, h.world.ledger)))
            && Reply(Release(w, signers, true)) == Reply(Release(h.world, signers, true)))
  {
    var c := CallTransferAdmin(oldSigners, newAdmin);
    var h' := Track(h, c);
    ReachableStep(h, opening, c);
    if TransferAdmin(h.world, oldSigners, newAdmin).Ok? {
      AdminControls(h', opening, signers);
      EmergencyWithdrawSucceedsIff(h', opening, signers, true);
      RevokeSucceedsIff(h', opening, signers, true);
      LinearOfSchedule(h.world.wallet, h'.world.wallet, h.world.ledger);
      ReleaseSucceedsIff(h, opening, signers, true);
      ReleaseSucceedsIff(h', opening, signers, true);
      LinearOfSchedule(h.world.wallet, h'.world.wallet, VestingLedger(h));
    }
  }

  /** The unchecked `count + 1` cannot overflow: at most one release per vesting ledger, and per token paid. */
  lemma ReleaseCountBound(h: History, opening: nat)
    requires Reachable(h, opening)
    ensures
      var s := h.world.wallet;
      && s.releaseCount <= Min(s.releasedAmount, s.endLedger - s.startLedger)
      && (s.beneficiary.Some? && !h.drained && Due(h) > 0 ==> s.releaseCount + 1 <= U32_MAX)
  {
    ReachableInv(h, opening);
    if Active(h) && !h.drained && Due(h) > 0 {
      PaidReleaseAdvances(h);
    }
  }

  /** The ledger a claim is settled at: now, or the revocation ledger if that came first. */
  function SettlementLedger(h: History): u32 {
    if h.revokedAt.Some? then Min(h.world.ledger, h.revokedAt.value) else h.world.ledger
  }

  /**
   Whatever happened before, a successful release brings the total ever paid, over all
   beneficiaries, to the formula at that ledger, or at the revocation ledger if earlier.
   */
  lemma ClaimTotal(h: History, opening: nat, signers: Signers, accepts: bool)
    requires Reachable(h, opening) && !h.drained
    requires Release(h.world, signers, accepts).Ok?
    ensures Moved(Release(h.world, signers, accepts).value.1.book.log).payout
         == Linear(h.world.wallet, SettlementLedger(h))
  {
    var s := h.world.wallet;
    ReachableInv(h, opening);
    ReleaseSucceedsIff(h, opening, signers, accepts);
    ReleasePreserves(h, opening, signers, accepts);
    LinearBounded(s, VestingLedger(h));
    LinearBounded(s, SettlementLedger(h));
  }

  /** Two runs of the same schedule that settle at the same ledger have paid the same, release by release or at once. */
  lemma ClaimScheduleIndependence(h1: History, opening1: nat, signers1: Signers,
                                  h2: History, opening2: nat, signers2: Signers)
    requires Reachable(h1, opening1) && !h1.drained && Release(h1.world, signers1, true).Ok?
    requires Reachable(h2, opening2) && !h2.drained && Release(h2.world, signers2, true).Ok?
    requires SameSchedule(h1.world.wallet, h2.world.wallet)
    requires SettlementLedger(h1) == SettlementLedger(h2)
    ensures Moved(Release(h1.world, signers1, true).value.1.book.log).payout
         == Moved(Release(h2.world, signers2, true).value.1.book.log).payout
  {
    ClaimTotal(h1, opening1, signers1, true);
    ClaimTotal(h2, opening2, signers2, true);
    LinearOfSchedule(h1.world.wallet, h2.world.wallet, SettlementLedger(h1));
  }

  /**
   The read views after every run: the vested amount is the formula's at the ledger vesting has
   reached (0 once drained), the released amount is what the token log paid out, and `revoked`
   tells that a revocation or an emergency withdrawal has succeeded.
   */
  lemma ViewsExact(h: History, opening: nat)
    requires Reachable(h, opening)
    ensures
      var s, o, r := h.world.wallet, GetVestingOverview(h.world), Releasable(h.world);
      && (if s.beneficiary.None? then o == Err(NotInitialized) && r == Err(NotInitialized) else o.Ok? && r.Ok?)
      && (o.Ok? ==>
            && o.value.vestedAmount == (if h.drained then 0 else Linear(s, VestingLedger(h)))
            && o.value.releasedAmount == Moved(h.world.book.log).payout >= 0
            && (o.value.revoked <==> h.revokedAt.Some? || h.drained)
            && o.value.releasableAmount == Due(h)
            && r.value == o.value.vestedAmount - o.value.releasedAmount)
  {
    ReachableInv(h, opening);
    if Active(h) {
      VestedInActive(h);
      LinearBounded(h.world.wallet, h.paidThrough);
      LinearBounded(h.world.wallet, VestingLedger(h));
    }
  }

  /** The schedule in storage, and the funder, are those of the accepted `initialize`. */
  predicate HoldsTerms(s: Storage, t: Terms) {
    && s.beneficiary.Some? && s.totalAmount == t.totalAmount && s.revocable == t.revocable && s.funder == t.admin
    && s.startLedger == t.startLedger && s.cliffLedger == t.cliffLedger && s.endLedger == t.endLedger
  }

  /** Nothing changes the schedule once it is there. */
  lemma StepKeepsTerms(w: World, c: Call, t: Terms)
    requires HoldsTerms(w.wallet, t)
    ensures HoldsTerms(Step(w, c).wallet, t)
  {
  }

  /** For the rest of every run, whoever holds the roles, the overview shows the schedule that was agreed on. */
  lemma {:induction false} ScheduleIsFixed(hs: seq<History>, calls: seq<Call>, i: nat, j: nat)
    requires Execution(hs, calls) && i < j < |hs| && calls[i].CallInitialize?
    requires Initialize(hs[i].world, calls[i].signers, calls[i].terms, calls[i].accepts).Ok?
    ensures
      var s, t, o := hs[j].world.wallet, calls[i].terms, GetVestingOverview(hs[j].world);
      && HoldsTerms(s, t)
      && o.Ok? && Some(o.value.beneficiary) == s.beneficiary && o.value.totalAmount == t.totalAmount
      && o.value.startLedger == t.startLedger && o.value.cliffLedger == t.cliffLedger
      && o.value.endLedger == t.endLedger && o.value.revocable == t.revocable
    decreases j
  {
    ExecutionsKeepInv(hs, calls, j);
    if i + 1 < j {
      ScheduleIsFixed(hs, calls, i, j - 1);
      StepKeepsTerms(hs[j - 1].world, calls[j - 1], calls[i].terms);
    }
    VestedInActive(hs[j]);
  }

  /** The stored entries that tell an emergency withdrawal after a paying release. */
  predicate Overdrawn(s: Storage) {
    s.revoked && s.revokedVested == 0 && s.releasedAmount > 0
  }

  /** They do tell it: no revocation leaves less frozen than was paid. */
  lemma OverdrawnIffDrained(h: History, opening: nat)
    requires Reachable(h, opening)
    ensures Overdrawn(h.world.wallet) <==> h.drained && h.world.wallet.releasedAmount > 0
  {
    ReachableInv(h, opening);
    if !h.drained {
      Solvency(h, opening);
    }
  }

  /**
   The overview announces exactly what an authorised release transfers. The plain
   `releasable()` announces it too, unless the storage shows an emergency withdrawal after a
   paying release; it is then minus the released amount.
   */
  lemma ViewsAgree(h: History, opening: nat, signers: Signers)
    requires Reachable(h, opening)
    requires h.world.wallet.beneficiary.Some? && h.world.wallet.beneficiary.value in signers
    ensures
      var e := h.world;
      var paid := Release(e, signers, true);
      && paid.Ok?
      && GetVestingOverview(e).Ok? && GetVestingOverview(e).value.releasableAmount == paid.value.0
      && Releasable(e).Ok?
      && (Releasable(e).value == paid.value.0 <==> !Overdrawn(e.wallet))
      && (Overdrawn(e.wallet) ==> Releasable(e).value + e.wallet.releasedAmount == 0)
  {
    ReachableInv(h, opening);
    ReleaseSucceedsIff(h, opening, signers, true);
    ViewsExact(h, opening);
    OverdrawnIffDrained(h, opening);
  }

  /** 100 tokens over two ledgers, initialised at ledger 0. */
  lemma ExampleFunded() returns (h: History)
    ensures Reachable(h, 0) && h.world.ledger == 0 && Balance(h.world.book, Self) == 100 && !h.drained
    ensures h.world.wallet == Storage(Some(External(2)), 100, 0, 0, 2, 0, External(1), External(1), false, false, 0, 0)
  {
    var w := World(EMPTY_STORAGE, 0, Book(map[External(1) := 100], []));
    var terms := Terms(External(2), 100, 0, 0, 2, false, External(1));
    h := History(w, None, false, 0);
    ReachableStart(w);
    InitializeAcceptsIff(w, {External(1)}, terms, true);
    ReachableStep(h, 0, CallInitialize({External(1)}, terms, true));
    h := Track(h, CallInitialize({External(1)}, terms, true));
  }

  /** The beneficiary has released half of them at half time. */
  lemma ExampleHalfPaid() returns (h: History)
    ensures Reachable(h, 0) && h.world.ledger == 1
    ensures h.world.wallet == Storage(Some(External(2)), 100, 0, 0, 2, 50, External(1), External(1), false, false, 0, 1)
  {
    h := ExampleFunded();
    ReachableStep(h, 0, AdvanceLedger(1));
    h := Track(h, AdvanceLedger(1));
    assert ComputeVested(h.world.wallet, 1) == Ok(50);
    ReachableStep(h, 0, CallRelease({External(2)}, true));
    h := Track(h, CallRelease({External(2)}, true));
  }

  /** It does happen: after an emergency withdrawal `releasable()` answers -50, while a release transfers nothing. */
  lemma ViewsDisagree() returns (h: History)
    ensures Reachable(h, 0) && Overdrawn(h.world.wallet)
    ensures Releasable(h.world) == Ok(-50) && Release(h.world, {External(2)}, true) == Ok((0, h.world))
  {
    h := ExampleHalfPaid();
    var c := CallEmergencyWithdraw({External(1)}, true);
    ReachableStep(h, 0, c);
    EmergencyWithdrawSucceedsIff(h, 0, c.signers, true);
    h := Track(h, c);
  }

  /** An emergency withdrawal ends every claim: no later release or revoke changes anything at all. */
  lemma EmergencyIsFinal(h: History, opening: nat, signers: Signers, accepts: bool)
    requires Reachable(h, opening) && h.drained
    ensures After(Release(h.world, signers, accepts), h.world) == h.world
    ensures After(Revoke(h.world, signers, accepts), h.world) == h.world
  {
    ReachableInv(h, opening);
    assert Untouched(h) || Active(h);
    LinearBounded(h.world.wallet, h.paidThrough);
  }
}
