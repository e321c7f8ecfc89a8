/**
 The vesting wallet contract: storage entries updated in place, step by step, with the
 host undoing every write of a call that fails. Each entry point is proved to do exactly
 what its transition in `VestingModel` says, so the theorems about runs hold of it.
 */
module VestingContract {
  import opened Host
  import M = VestingModel

  class VestingWallet {
    /** The contract's instance entry: one record holding every storage key. */
    var store: M.Storage

    // The host's side: the current ledger and the vested token.
    var ledger: u32
    var book: M.Book

    constructor (ledger: u32, balances: map<Address, nat>)
      ensures M.Deployment(Snapshot())
      ensures Snapshot().ledger == ledger && Snapshot().book.balances == balances
    {
      this.store, this.ledger, this.book := M.EMPTY_STORAGE, ledger, M.Book(balances, []);
    }

    function Snapshot(): M.World
      reads this
    {
      M.World(store, ledger, book)
    }

    /** What the host does to a failed call: every write is undone. */
    method Restore(w: M.World)
      modifies this
      ensures Snapshot() == w
    {
      store, ledger, book := w.wallet, w.ledger, w.book;
    }

    /** The token's `transfer`; false when it traps. */
    method TransferTokens(src: Address, dst: Address, amount: nat, purpose: M.Purpose, accepts: bool)
      returns (done: bool)
      modifies this`book
      ensures done == M.Pay(old(book), src, dst, amount, purpose, accepts).Ok?
      ensures done ==> book == M.Pay(old(book), src, dst, amount, purpose, accepts).value
      ensures !done ==> book == old(book)
    {
      if !accepts || M.Balance(book, src) < amount {
        return false;
      }
      var balances := book.balances;
      balances := balances[src := M.Balance(book, src) - amount];
      var held := if dst in balances then balances[dst] else 0;
      balances := balances[dst := held + amount];
      book := M.Book(balances, book.log + [M.Transfer(src, dst, amount, purpose)]);
      return true;
    }

    /** `count + 1` under overflow checks: false when it would panic. */
    method IncrementReleaseCount() returns (done: bool)
      modifies this`store
      ensures done == (old(store).releaseCount < U32_MAX)
      ensures done ==> store == old(store).(releaseCount := old(store).releaseCount + 1)
    {
      if store.releaseCount == U32_MAX {
        return false;
      }
      store := store.(releaseCount := store.releaseCount + 1);
      return true;
    }

    method StoreTerms(t: M.Terms)
      modifies this`store
      ensures store == old(store).(
                beneficiary := Some(t.beneficiary), totalAmount := t.totalAmount, startLedger := t.startLedger,
                cliffLedger := t.cliffLedger, endLedger := t.endLedger, revocable := t.revocable,
                admin := t.admin, funder := t.admin, releasedAmount := 0)
    {
      store := store.(beneficiary := Some(t.beneficiary));
      store := store.(totalAmount := t.totalAmount);
      store := store.(startLedger := t.startLedger);
      store := store.(cliffLedger := t.cliffLedger);
      store := store.(endLedger := t.endLedger);
      store := store.(revocable := t.revocable);
      store := store.(admin := t.admin);
      store := store.(funder := t.admin);
      store := store.(releasedAmount := 0);
    }

    method InitializeBody(signers: Signers, t: M.Terms, accepts: bool) returns (r: Outcome<(), M.Error>)
      modifies this
      ensures r == Reply(M.Initialize(old(Snapshot()), signers, t, accepts))
      ensures r.Ok? ==> Snapshot() == M.Initialize(old(Snapshot()), signers, t, accepts).value.1
    {
      if store.beneficiary.Some? {
        return Err(M.AlreadyInitialized);
      }
      if t.beneficiary == Zero {
        return Err(M.InvalidInput);
      }
      if !(t.totalAmount > 0 && t.startLedger >= ledger
           && t.cliffLedger >= t.startLedger && t.endLedger > t.cliffLedger) {
        return Trap;
      }
      if M.Oversized(t) {
        return Err(M.TotalAmountTooLarge);
      }
      if t.admin !in signers {
        return Trap;
      }
      StoreTerms(t);
      var done := TransferTokens(t.admin, Self, t.totalAmount, M.Funding, accepts);
      return if done then Ok(()) else Trap;
    }

    method Initialize(signers: Signers, t: M.Terms, accepts: bool) returns (r: Outcome<(), M.Error>)
      modifies this
      ensures
        var o := M.Initialize(old(Snapshot()), signers, t, accepts);
        r == Reply(o) && Snapshot() == After(o, old(Snapshot()))
    {
      var before := Snapshot();
      r := InitializeBody(signers, t, accepts);
      if r.IsFailure() {
        Restore(before);
      }
    }

    method ReleaseBody(signers: Signers, accepts: bool) returns (r: Outcome<i128, M.Error>)
      modifies this
      ensures r == Reply(M.Release(old(Snapshot()), signers, accepts))
      ensures r.Ok? ==> Snapshot() == M.Release(old(Snapshot()), signers, accepts).value.1
    {
      if store.beneficiary.None? {
        return Err(M.NotInitialized);
      }
      if store.beneficiary.value !in signers {
        return Trap;
      }
      var vested :- M.ComputeVested(store, ledger);
      var releasable := Max(SaturatingSub(vested, store.releasedAmount), 0);
      if releasable == 0 {
        return Ok(0);
      }
      if M.Balance(book, Self) < releasable {
        return Err(M.InsufficientBalance);
      }
      var done := IncrementReleaseCount();
      if !done || !FitsI128(store.releasedAmount + releasable) {
        return Trap;
      }
      store := store.(releasedAmount := store.releasedAmount + releasable);
      done := TransferTokens(Self, store.beneficiary.value, releasable, M.Payout, accepts);
      return if done then Ok(releasable) else Trap;
    }

    method Release(signers: Signers, accepts: bool) returns (r: Outcome<i128, M.Error>)
      modifies this
      ensures
        var o := M.Release(old(Snapshot()), signers, accepts);
        r == Reply(o) && Snapshot() == After(o, old(Snapshot()))
    {
      var before := Snapshot();
      r := ReleaseBody(signers, accepts);
      if r.IsFailure() {
        Restore(before);
      }
    }

    method RevokeBody(signers: Signers, accepts: bool) returns (r: Outcome<(), M.Error>)
      modifies this
      ensures r == Reply(M.Revoke(old(Snapshot()), signers, accepts))
      ensures r.Ok? ==> Snapshot() == M.Revoke(old(Snapshot()), signers, accepts).value.1
    {
      if store.beneficiary.None? {
        return Err(M.NotInitialized);
      }
      if !store.revocable {
        return Err(M.NotRevocable);
      }
      if store.revoked {
        return Err(M.AlreadyRevoked);
      }
      if store.admin !in signers {
        return Trap;
      }
      var vested :- M.ComputeVested(store, ledger);
      var unvested := store.totalAmount - vested;
      if !FitsI128(unvested) {
        return Trap;
      }
      store := store.(revokedVested := vested);
      store := store.(revoked := true);
      if unvested > 0 {
        var done := TransferTokens(Self, store.funder, unvested, M.Refund, accepts);
        if !done {
          return Trap;
        }
      }
      return Ok(());
    }

    method Revoke(signers: Signers, accepts: bool) returns (r: Outcome<(), M.Error>)
      modifies this
      ensures
        var o := M.Revoke(old(Snapshot()), signers, accepts);
        r == Reply(o) && Snapshot() == After(o, old(Snapshot()))
    {
      var before := Snapshot();
      r := RevokeBody(signers, accepts);
      if r.IsFailure() {
        Restore(before);
      }
    }

    method EmergencyWithdrawBody(signers: Signers, accepts: bool) returns (r: Outcome<int, M.Error>)
      modifies this
      ensures r == Reply(M.EmergencyWithdraw(old(Snapshot()), signers, accepts))
      ensures r.Ok? ==> Snapshot() == M.EmergencyWithdraw(old(Snapshot()), signers, accepts).value.1
    {
      if store.beneficiary.None? {
        return Err(M.NotInitialized);
      }
      if store.admin !in signers {
        return Trap;
      }
      var amount := M.Balance(book, Self);
      store := store.(revoked := true);
      store := store.(revokedVested := 0);
      if amount > 0 {
        var done := TransferTokens(Self, store.admin, amount, M.Drain, accepts);
        if !done {
          return Trap;
        }
      }
      return Ok(amount);
    }

    method EmergencyWithdraw(signers: Signers, accepts: bool) returns (r: Outcome<int, M.Error>)
      modifies this
      ensures
        var o := M.EmergencyWithdraw(old(Snapshot()), signers, accepts);
        r == Reply(o) && Snapshot() == After(o, old(Snapshot()))
    {
      var before := Snapshot();
      r := EmergencyWithdrawBody(signers, accepts);
      if r.IsFailure() {
        Restore(before);
      }
    }

    method TransferBeneficiary(signers: Signers, newBeneficiary: Address) returns (r: Outcome<(), M.Error>)
      modifies this`store
      ensures
        var o := M.TransferBeneficiary(old(Snapshot()), signers, newBeneficiary);
        r == Reply(o) && Snapshot() == After(o, old(Snapshot()))
    {
      if store.beneficiary.None? {
        return Err(M.NotInitialized);
      }
      if newBeneficiary == Zero {
        return Err(M.InvalidInput);
      }
      if store.admin !in signers {
        return Trap;
      }
      store := store.(beneficiary := Some(newBeneficiary));
      return Ok(());
    }

    method TransferAdmin(signers: Signers, newAdmin: Address) returns (r: Outcome<(), M.Error>)
      modifies this`store
      ensures
        var o := M.TransferAdmin(old(Snapshot()), signers, newAdmin);
        r == Reply(o) && Snapshot() == After(o, old(Snapshot()))
    {
      if store.beneficiary.None? {
        return Err(M.NotInitialized);
      }
      if store.admin !in signers {
        return Trap;
      }
      store := store.(admin := newAdmin);
      return Ok(());
    }

    /** Any single event of a run, performed on the contract, is the model's step. */
    method Execute(c: M.Call)
      modifies this
      ensures Snapshot() == M.Step(old(Snapshot()), c)
    {
      match c {
        case CallInitialize(sg, t, ok) =>
          var _ := Initialize(sg, t, ok);
        case CallRelease(sg, ok) =>
          var _ := Release(sg, ok);
        case CallRevoke(sg, ok) =>
          var _ := Revoke(sg, ok);
        case CallEmergencyWithdraw(sg, ok) =>
          var _ := EmergencyWithdraw(sg, ok);
        case CallTransferBeneficiary(sg, nb) =>
          var _ := TransferBeneficiary(sg, nb);
        case CallTransferAdmin(sg, na) =>
          var _ := TransferAdmin(sg, na);
        case AdvanceLedger(to) =>
          if to > ledger {
            ledger := to;
          }
        case OutsideTransfer(src, dst, amount) =>
          if src != Self {
            var _ := TransferTokens(src, dst, amount, if dst == Self then M.Donation else M.Unrelated, true);
          }
      }
    }
  }
}
