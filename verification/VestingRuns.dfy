/**
 Runs of a vesting wallet and the invariant every one of them keeps: the token log balances,
 and the releases and the revocation are those of the vesting formula.
 */
module VestingRuns {
  import opened Host
  import opened VestingModel
  import opened VestingFormula

  // ---------------------------------------------------------------- the token log

  /** How much has moved for each purpose, and how many payouts there were. */
  datatype Totals = Totals(funding: int, payout: int, refund: int, drain: int, donation: int, payouts: nat) {
    function Plus(t: Transfer): Totals {
      match t.purpose
      case Funding => this.(funding := funding + t.amount)
      case Payout => this.(payout := payout + t.amount, payouts := payouts + 1)
      case Refund => this.(refund := refund + t.amount)
      case Drain => this.(drain := drain + t.amount)
      case Donation => this.(donation := donation + t.amount)
      case Unrelated => this
    }
  }

  function Moved(log: seq<Transfer>): Totals {
    if log == [] then Totals(0, 0, 0, 0, 0, 0) else Moved(log[..|log| - 1]).Plus(log[|log| - 1])
  }

  /** A transfer's ends agree with its purpose: the funder paid the schedule, and refunds go back to the funder. */
  predicate WellDirected(t: Transfer, funder: Address) {
    && t.amount >= 0
    && match t.purpose
       case Funding => t.src == funder != Self && t.dst == Self
       case Donation => t.src != Self && t.dst == Self
       case Payout | Drain => t.src == Self && t.dst != Self
       case Refund => t.src == Self && t.dst == funder != Self
       case Unrelated => t.src != Self && t.dst != Self
  }

  /** The wallet's holdings are what came in less what went out. */
  predicate Conserved(b: Book, opening: int) {
    var m := Moved(b.log);
    opening + m.funding + m.donation == Balance(b, Self) + m.payout + m.refund + m.drain
  }

  predicate AllDirected(log: seq<Transfer>, funder: Address) {
    forall t :: t in log ==> WellDirected(t, funder)
  }

  /** A well-directed transfer keeps the book conserved and grows only its own purpose's total. */
  lemma PayKeepsBook(b: Book, t: Transfer, accepts: bool, funder: Address, opening: int)
    requires Conserved(b, opening) && AllDirected(b.log, funder) && WellDirected(t, funder)
    requires Pay(b, t.src, t.dst, t.amount, t.purpose, accepts).Ok?
    ensures
      var b' := Pay(b, t.src, t.dst, t.amount, t.purpose, accepts).value;
      && Conserved(b', opening) && AllDirected(b'.log, funder)
      && b'.log == b.log + [t] && Moved(b'.log) == Moved(b.log).Plus(t)
  {
    assert (b.log + [t])[..|b.log|] == b.log;
  }

  lemma {:induction false} DonationsNonNegative(log: seq<Transfer>, funder: Address)
    requires AllDirected(log, funder)
    ensures Moved(log).donation >= 0
  {
    if log != [] {
      assert log[|log| - 1] in log;
      DonationsNonNegative(log[..|log| - 1], funder);
    }
  }

  // ---------------------------------------------------------------- histories

  /**
   A run with what it has done: the ledger of a successful `revoke`, whether an
   `emergency_withdraw` succeeded, and the vesting ledger of the last counted release.
   */
  datatype History = History(world: World, revokedAt: Option<u32>, drained: bool, paidThrough: u32)

  /** The ledger that vesting has reached: it stops at the end and at a revocation. */
  function VestingLedger(h: History): u32 {
    var l := Min(h.world.ledger, h.world.wallet.endLedger);
    if h.revokedAt.Some? then Min(l, h.revokedAt.value) else l
  }

  function Track(h: History, c: Call): History {
    var h' := h.(world := Step(h.world, c));
    match c
    case CallInitialize(sg, t, ok) =>
      if Initialize(h.world, sg, t, ok).Ok? then h'.(paidThrough := t.startLedger) else h'
    case CallRelease(sg, ok) =>
      var r := Release(h.world, sg, ok);
      if r.Ok? && r.value.0 > 0 then h'.(paidThrough := VestingLedger(h)) else h'
    case CallRevoke(sg, ok) =>
      if Revoke(h.world, sg, ok).Ok? then h'.(revokedAt := Some(h.world.ledger)) else h'
    case CallEmergencyWithdraw(sg, ok) =>
      if EmergencyWithdraw(h.world, sg, ok).Ok? then h'.(drained := true) else h'
    case _ => h'
  }

  /** Histories `hs[0]`, `hs[1]`, ... of a run: from deployment, one call at a time. */
  predicate Execution(hs: seq<History>, calls: seq<Call>) {
    && |hs| == |calls| + 1
    && Deployment(hs[0].world) && hs[0] == History(hs[0].world, None, false, 0)
    && forall i :: 0 <= i < |calls| ==> hs[i + 1] == Track(hs[i], calls[i])
  }

  // ---------------------------------------------------------------- the invariant

  predicate Untouched(h: History) {
    var log := h.world.book.log;
    && h.world.wallet == EMPTY_STORAGE
    && h.revokedAt.None? && !h.drained
    && (forall t :: t in log ==> t.purpose.Donation? || t.purpose.Unrelated?)
    && var m := Moved(log); m.funding == m.payout == m.refund == m.drain == m.payouts == 0
  }

  /** What has been released is the formula at an earlier vesting ledger, one ledger per release at least. */
  predicate ReleasesAccounted(h: History) {
    var s := h.world.wallet;
    && Moved(h.world.book.log).payout == s.releasedAmount == Linear(s, h.paidThrough)
    && s.startLedger <= h.paidThrough <= s.endLedger
    && s.releaseCount == Moved(h.world.book.log).payouts <= s.releasedAmount
    && s.releaseCount <= h.paidThrough - s.startLedger
  }

  /** Without an emergency withdrawal, refunds and the frozen amount are those of the revocation ledger. */
  predicate RevocationAccounted(h: History) {
    var s, log := h.world.wallet, h.world.book.log;
    && Moved(log).drain == 0
    && s.revoked == h.revokedAt.Some?
    && h.paidThrough <= Max(s.startLedger, VestingLedger(h))
    && (if h.revokedAt.Some?
        then && h.revokedAt.value <= h.world.ledger
             && s.revokedVested == Linear(s, h.revokedAt.value)
             && Moved(log).refund == s.totalAmount - s.revokedVested
        else Moved(log).refund == 0)
  }

  predicate Active(h: History) {
    var s := h.world.wallet;
    && s.beneficiary.Some? && s.beneficiary.value != Zero
    && ValidSchedule(s)
    && s.funder != Self
    && Moved(h.world.book.log).funding == s.totalAmount
    && ReleasesAccounted(h)
    && (if h.drained then s.revoked && s.revokedVested == 0 else RevocationAccounted(h))
  }

  predicate Inv(h: History, opening: int) {
    && Conserved(h.world.book, opening)
    && AllDirected(h.world.book.log, h.world.wallet.funder)
    && (h.world.wallet.beneficiary.None? ==> Untouched(h))
    && (h.world.wallet.beneficiary.Some? ==> Active(h))
  }

  /** What `compute_vested` yields in an active wallet. */
  lemma VestedInActive(h: History)
    requires Active(h)
    ensures ComputeVested(h.world.wallet, h.world.ledger)
         == Ok(if h.drained then 0 else Linear(h.world.wallet, VestingLedger(h)))
    ensures !h.drained ==> Linear(h.world.wallet, h.paidThrough) <= Linear(h.world.wallet, VestingLedger(h))
  {
    var s := h.world.wallet;
    if !h.drained {
      if h.revokedAt.None? {
        ComputeVestedIsLinear(s, h.world.ledger);
      }
      LinearBounded(s, h.paidThrough);
      LinearBounded(s, VestingLedger(h));
      LinearBounded(s, s.endLedger);
      LinearBounded(s, h.world.ledger);
      if h.revokedAt.Some? {
        LinearBounded(s, h.revokedAt.value);
      }
      if h.paidThrough <= VestingLedger(h) {
        LinearMonotone(s, h.paidThrough, VestingLedger(h));
      }
    }
  }

  /** A release that pays does so at a strictly later vesting ledger than the one before. */
  lemma PaidReleaseAdvances(h: History)
    requires Active(h) && !h.drained
    requires Linear(h.world.wallet, VestingLedger(h)) > h.world.wallet.releasedAmount
    ensures h.paidThrough < VestingLedger(h)
  {
    var s := h.world.wallet;
    if VestingLedger(h) <= h.paidThrough {
      LinearMonotone(s, VestingLedger(h), h.paidThrough);
      assert false;
    }
  }

  /** Exactly what an active wallet still owes, in terms of its own log. */
  lemma HoldingsCoverClaims(h: History, opening: int)
    requires Inv(h, opening) && Active(h) && !h.drained
    ensures Balance(h.world.book, Self)
         == opening + Moved(h.world.book.log).donation - h.world.wallet.releasedAmount
            + (if h.world.wallet.revoked then h.world.wallet.revokedVested else h.world.wallet.totalAmount)
  {
  }

  // ---------------------------------------------------------------- preservation

  lemma InitializePreserves(h: History, opening: int, signers: Signers, t: Terms, accepts: bool)
    requires Inv(h, opening)
    ensures Inv(Track(h, CallInitialize(signers, t, accepts)), opening)
  {
    var w, h' := h.world, Track(h, CallInitialize(signers, t, accepts));
    if Initialize(w, signers, t, accepts).Ok? {
      assert AllDirected(w.book.log, t.admin);
      PayKeepsBook(w.book, Transfer(t.admin, Self, t.totalAmount, Funding), accepts, t.admin, opening);
      LinearBounded(h'.world.wallet, t.startLedger);
    }
  }

  /** What a paying release does: it settles everything vested by now. */
  lemma PayingRelease(h: History, opening: int, signers: Signers, accepts: bool)
    requires Inv(h, opening)
    requires Release(h.world, signers, accepts).Ok? && Release(h.world, signers, accepts).value.0 > 0
    ensures Active(h) && !h.drained && h.paidThrough < VestingLedger(h)
    ensures
      var s := h.world.wallet;
      var (paid, w') := Release(h.world, signers, accepts).value;
      && s.releasedAmount + paid == Linear(s, VestingLedger(h)) == w'.wallet.releasedAmount
      && Conserved(w'.book, opening) && AllDirected(w'.book.log, s.funder)
      && Moved(w'.book.log)
         == Moved(h.world.book.log).(payout := s.releasedAmount + paid, payouts := s.releaseCount + 1)
      && w'.wallet == s.(releasedAmount := w'.wallet.releasedAmount, releaseCount := w'.wallet.releaseCount)
      && w'.wallet.releaseCount == s.releaseCount + 1
  {
    var w, s := h.world, h.world.wallet;
    var paid := Release(w, signers, accepts).value.0;
    VestedInActive(h);
    LinearBounded(s, h.paidThrough);
    LinearBounded(s, VestingLedger(h));
    PaidReleaseAdvances(h);
    PayKeepsBook(w.book, Transfer(Self, s.beneficiary.value, paid, Payout), accepts, s.funder, opening);
  }

  lemma ReleasePreserves(h: History, opening: int, signers: Signers, accepts: bool)
    requires Inv(h, opening)
    ensures Inv(Track(h, CallRelease(signers, accepts)), opening)
  {
    var o := Release(h.world, signers, accepts);
    if o.Ok? && o.value.0 > 0 {
      PayingRelease(h, opening, signers, accepts);
      LinearOfSchedule(h.world.wallet, o.value.1.wallet, VestingLedger(h));
      if h.revokedAt.Some? {
        LinearOfSchedule(h.world.wallet, o.value.1.wallet, h.revokedAt.value);
      }
    }
  }

  /** What a revocation does: it freezes the formula's value and refunds the rest. */
  lemma RevokeSettles(h: History, opening: int, signers: Signers, accepts: bool)
    requires Inv(h, opening) && Revoke(h.world, signers, accepts).Ok?
    ensures Active(h) && !h.drained && h.revokedAt.None?
    ensures
      var s, w' := h.world.wallet, Revoke(h.world, signers, accepts).value.1;
      var vested := Linear(s, h.world.ledger);
      && w'.ledger == h.world.ledger
      && w'.wallet == s.(revoked := true, revokedVested := w'.wallet.revokedVested)
      && w'.wallet.revokedVested == vested
      && Conserved(w'.book, opening) && AllDirected(w'.book.log, s.funder)
      && Moved(w'.book.log) == Moved(h.world.book.log).(refund := s.totalAmount - vested)
  {
    var w, s := h.world, h.world.wallet;
    ComputeVestedIsLinear(s, w.ledger);
    LinearBounded(s, w.ledger);
    var unvested := s.totalAmount - Linear(s, w.ledger);
    if unvested > 0 {
      PayKeepsBook(w.book, Transfer(Self, s.funder, unvested, Refund), accepts, s.funder, opening);
    }
  }

  lemma RevokePreserves(h: History, opening: int, signers: Signers, accepts: bool)
    requires Inv(h, opening)
    ensures Inv(Track(h, CallRevoke(signers, accepts)), opening)
  {
    var o := Revoke(h.world, signers, accepts);
    if o.Ok? {
      RevokeSettles(h, opening, signers, accepts);
      LinearOfSchedule(h.world.wallet, o.value.1.wallet, h.paidThrough);
      LinearOfSchedule(h.world.wallet, o.value.1.wallet, h.world.ledger);
    }
  }

  lemma EmergencyWithdrawPreserves(h: History, opening: int, signers: Signers, accepts: bool)
    requires Inv(h, opening)
    ensures Inv(Track(h, CallEmergencyWithdraw(signers, accepts)), opening)
  {
    var w, s := h.world, h.world.wallet;
    var o := EmergencyWithdraw(w, signers, accepts);
    if o.Ok? && o.value.0 > 0 {
      PayKeepsBook(w.book, Transfer(Self, s.admin, o.value.0, Drain), accepts, s.funder, opening);
    }
  }

  /** Activity depends on the book only through the totals the wallet itself moved. */
  lemma ActiveFrame(h: History, h': History)
    requires Active(h)
    requires h' == h.(world := h.world.(book := h'.world.book))
    requires Moved(h'.world.book.log) == Moved(h.world.book.log).(donation := Moved(h'.world.book.log).donation)
    ensures Active(h')
  {
  }

  lemma OutsidePreserves(h: History, opening: int, c: Call)
    requires Inv(h, opening) && c.OutsideTransfer?
    ensures Inv(Track(h, c), opening)
  {
    var purpose := if c.dst == Self then Donation else Unrelated;
    var h' := Track(h, c);
    if c.src != Self && Pay(h.world.book, c.src, c.dst, c.amount, purpose, true).Ok? {
      PayKeepsBook(h.world.book, Transfer(c.src, c.dst, c.amount, purpose), true, h.world.wallet.funder, opening);
      if h.world.wallet.beneficiary.Some? {
        ActiveFrame(h, h');
      }
    }
  }

  lemma HandoverPreserves(h: History, opening: int, c: Call)
    requires Inv(h, opening) && (c.CallTransferBeneficiary? || c.CallTransferAdmin? || c.AdvanceLedger?)
    ensures Inv(Track(h, c), opening)
  {
    var h' := Track(h, c);
    assert h'.world.book == h.world.book && h'.paidThrough == h.paidThrough;
    if Active(h) {
      LinearOfSchedule(h.world.wallet, h'.world.wallet, h.paidThrough);
      if h.revokedAt.Some? {
        LinearOfSchedule(h.world.wallet, h'.world.wallet, h.revokedAt.value);
      }
    }
  }

  lemma StepPreserves(h: History, opening: int, c: Call)
    requires Inv(h, opening)
    ensures Inv(Track(h, c), opening)
  {
    match c
    case CallInitialize(sg, t, ok) => InitializePreserves(h, opening, sg, t, ok);
    case CallRelease(sg, ok) => ReleasePreserves(h, opening, sg, ok);
    case CallRevoke(sg, ok) => RevokePreserves(h, opening, sg, ok);
    case CallEmergencyWithdraw(sg, ok) => EmergencyWithdrawPreserves(h, opening, sg, ok);
    case CallTransferBeneficiary(_, _) => HandoverPreserves(h, opening, c);
    case CallTransferAdmin(_, _) => HandoverPreserves(h, opening, c);
    case AdvanceLedger(_) => HandoverPreserves(h, opening, c);
    case OutsideTransfer(_, _, _) => OutsidePreserves(h, opening, c);
  }

  lemma {:induction false} ExecutionsKeepInv(hs: seq<History>, calls: seq<Call>, i: nat)
    requires Execution(hs, calls) && i < |hs|
    ensures Inv(hs[i], Balance(hs[0].world.book, Self))
  {
    if i > 0 {
      ExecutionsKeepInv(hs, calls, i - 1);
      StepPreserves(hs[i - 1], Balance(hs[0].world.book, Self), calls[i - 1]);
    }
  }
}
