/**
 The vesting wallet as a transition system: its storage, the book of the vested token,
 and what every entry point does to them. Each entry point is a function from the state
 before to `Ok((reply, state after))` or a failure.
 */
module VestingModel {
  import opened Host

  datatype Error =
    | AlreadyInitialized | NotInitialized | NotRevocable | AlreadyRevoked
    | TotalAmountTooLarge | ArithmeticOverflow | InvalidInput | InsufficientBalance

  /** i128::MAX / u32::MAX, the largest amount a schedule may hold. */
  const MAX_TOTAL_AMOUNT: int := I128_MAX / 4_294_967_295

  /** One entry per storage key; `beneficiary` doubles as the initialisation marker. */
  datatype Storage = Storage(
    beneficiary: Option<Address>,
    totalAmount: i128,
    startLedger: u32,
    cliffLedger: u32,
    endLedger: u32,
    releasedAmount: i128,
    admin: Address,
    funder: Address,
    revocable: bool,
    revoked: bool,
    revokedVested: i128,
    releaseCount: u32
  )

  const EMPTY_STORAGE := Storage(None, 0, 0, 0, 0, 0, Zero, Zero, false, false, 0, 0)

  /** Why tokens moved. The last two are transfers the wallet has no part in starting. */
  datatype Purpose = Funding | Payout | Refund | Drain | Donation | Unrelated

  datatype Transfer = Transfer(src: Address, dst: Address, amount: int, purpose: Purpose)

  /** The vested token: who holds what, and every transfer so far. */
  datatype Book = Book(balances: map<Address, nat>, log: seq<Transfer>)

  datatype World = World(wallet: Storage, ledger: u32, book: Book)

  function Balance(b: Book, a: Address): nat {
    if a in b.balances then b.balances[a] else 0
  }

  /** An exact transfer. It traps when uncovered, or when the token refuses it (`accepts` is its answer). */
  function Pay(b: Book, src: Address, dst: Address, amount: nat, purpose: Purpose, accepts: bool)
    : Outcome<Book, Error>
  {
    if !accepts || Balance(b, src) < amount then Trap
    else
      var debited := b.balances[src := Balance(b, src) - amount];
      var held := if dst in debited then debited[dst] else 0;
      Ok(Book(debited[dst := held + amount], b.log + [Transfer(src, dst, amount, purpose)]))
  }

  // ---------------------------------------------------------------- the formula

  /** Linear vesting from `startLedger` with nothing before the cliff, over unbounded integers. */
  function Linear(s: Storage, ledger: int): int {
    if ledger < s.cliffLedger then 0
    else if ledger >= s.endLedger || s.endLedger == s.startLedger then s.totalAmount
    else s.totalAmount * (ledger - s.startLedger) / (s.endLedger - s.startLedger)
  }

  /** `compute_vested`: the same formula on checked i128 arithmetic, frozen by a revocation. */
  function ComputeVested(s: Storage, ledger: u32): Outcome<i128, Error> {
    if s.revoked then Ok(s.revokedVested)
    else if ledger < s.cliffLedger then Ok(0)
    else if ledger >= s.endLedger then Ok(s.totalAmount)
    else
      var product := s.totalAmount * (ledger - s.startLedger);
      var divisor := s.endLedger - s.startLedger;
      if !FitsI128(product) || divisor == 0 then Err(ArithmeticOverflow)
      else
        var quotient := TruncatedDiv(product, divisor);
        if !FitsI128(quotient) then Err(ArithmeticOverflow) else Ok(quotient)
  }

  /** Rust's `/` on signed integers rounds toward zero. */
  function TruncatedDiv(x: int, y: int): int
    requires y != 0
  {
    if x >= 0 then x / y else -((-x) / y)
  }

  // ---------------------------------------------------------------- entry points

  /** The arguments of `initialize`. */
  datatype Terms = Terms(beneficiary: Address, totalAmount: i128, startLedger: u32, cliffLedger: u32,
                         endLedger: u32, revocable: bool, admin: Address)

  /** The amount ceiling, and the product check that repeats it. */
  predicate Oversized(t: Terms) {
    t.totalAmount > MAX_TOTAL_AMOUNT || !FitsI128(t.totalAmount * (t.endLedger - t.startLedger))
  }

  function Initialize(w: World, signers: Signers, t: Terms, accepts: bool): Outcome<((), World), Error> {
    if w.wallet.beneficiary.Some? then Err(AlreadyInitialized)
    else if t.beneficiary == Zero then Err(InvalidInput)
    else if t.totalAmount <= 0 || t.startLedger < w.ledger
            || t.cliffLedger < t.startLedger || t.endLedger <= t.cliffLedger then Trap
    else if Oversized(t) then Err(TotalAmountTooLarge)
    else if t.admin !in signers then Trap
    else
      var book :- Pay(w.book, t.admin, Self, t.totalAmount, Funding, accepts);
      var wallet := w.wallet.(
        beneficiary := Some(t.beneficiary), totalAmount := t.totalAmount, startLedger := t.startLedger,
        cliffLedger := t.cliffLedger, endLedger := t.endLedger, revocable := t.revocable,
        admin := t.admin, funder := t.admin, releasedAmount := 0);
      Ok(((), w.(wallet := wallet, book := book)))
  }

  function Release(w: World, signers: Signers, accepts: bool): Outcome<(i128, World), Error> {
    var s := w.wallet;
    if s.beneficiary.None? then Err(NotInitialized)
    else if s.beneficiary.value !in signers then Trap
    else
      var vested :- ComputeVested(s, w.ledger);
      var releasable := Max(SaturatingSub(vested, s.releasedAmount), 0);
      if releasable == 0 then Ok((0, w))
      else if Balance(w.book, Self) < releasable then Err(InsufficientBalance)
      else if s.releaseCount == U32_MAX || !FitsI128(s.releasedAmount + releasable) then Trap
      else
        var book :- Pay(w.book, Self, s.beneficiary.value, releasable, Payout, accepts);
        var wallet := s.(releaseCount := s.releaseCount + 1, releasedAmount := s.releasedAmount + releasable);
        Ok((releasable, w.(wallet := wallet, book := book)))
  }

  function Revoke(w: World, signers: Signers, accepts: bool): Outcome<((), World), Error> {
    var s := w.wallet;
    if s.beneficiary.None? then Err(NotInitialized)
    else if !s.revocable then Err(NotRevocable)
    else if s.revoked then Err(AlreadyRevoked)
    else if s.admin !in signers then Trap
    else
      var vested :- ComputeVested(s, w.ledger);
      var unvested := s.totalAmount - vested;
      var wallet := s.(revokedVested := vested, revoked := true);
      if !FitsI128(unvested) then Trap
      else if unvested <= 0 then Ok(((), w.(wallet := wallet)))
      else
        var book :- Pay(w.book, Self, s.funder, unvested, Refund, accepts);
        Ok(((), w.(wallet := wallet, book := book)))
  }

  function EmergencyWithdraw(w: World, signers: Signers, accepts: bool): Outcome<(int, World), Error> {
    var s := w.wallet;
    if s.beneficiary.None? then Err(NotInitialized)
    else if s.admin !in signers then Trap
    else
      var amount := Balance(w.book, Self);
      var wallet := s.(revoked := true, revokedVested := 0);
      if amount == 0 then Ok((0, w.(wallet := wallet)))
      else
        var book :- Pay(w.book, Self, s.admin, amount, Drain, accepts);
        Ok((amount, w.(wallet := wallet, book := book)))
  }

  function TransferBeneficiary(w: World, signers: Signers, newBeneficiary: Address): Outcome<((), World), Error> {
    if w.wallet.beneficiary.None? then Err(NotInitialized)
    else if newBeneficiary == Zero then Err(InvalidInput)
    else if w.wallet.admin !in signers then Trap
    else Ok(((), w.(wallet := w.wallet.(beneficiary := Some(newBeneficiary)))))
  }

  function TransferAdmin(w: World, signers: Signers, newAdmin: Address): Outcome<((), World), Error> {
    if w.wallet.beneficiary.None? then Err(NotInitialized)
    else if w.wallet.admin !in signers then Trap
    else Ok(((), w.(wallet := w.wallet.(admin := newAdmin))))
  }

  /** `releasable()`: vested minus released, not clamped. */
  function Releasable(w: World): Outcome<i128, Error> {
    if w.wallet.beneficiary.None? then Err(NotInitialized)
    else
      var vested :- ComputeVested(w.wallet, w.ledger);
      if !FitsI128(vested - w.wallet.releasedAmount) then Trap else Ok(vested - w.wallet.releasedAmount)
  }

  /** `VestingOverview`: the configured schedule and its live progress. */
  datatype Overview = Overview(
    beneficiary: Address, totalAmount: i128, startLedger: u32, cliffLedger: u32, endLedger: u32, revocable: bool,
    revoked: bool, vestedAmount: i128, releasedAmount: i128, releasableAmount: i128
  )

  function GetVestingOverview(w: World): Outcome<Overview, Error> {
    var s := w.wallet;
    if s.beneficiary.None? then Err(NotInitialized)
    else
      var vested :- ComputeVested(s, w.ledger);
      var released := s.releasedAmount;
      Ok(Overview(s.beneficiary.value, s.totalAmount, s.startLedger, s.cliffLedger, s.endLedger, s.revocable,
                  s.revoked, vested, released, Max(SaturatingSub(vested, released), 0)))
  }

  // ---------------------------------------------------------------- runs

  /** Everything that can happen to a wallet. The last two are the ledger closing and other token holders. */
  datatype Call =
    | CallInitialize(signers: Signers, terms: Terms, accepts: bool)
    | CallRelease(signers: Signers, accepts: bool)
    | CallRevoke(signers: Signers, accepts: bool)
    | CallEmergencyWithdraw(signers: Signers, accepts: bool)
    | CallTransferBeneficiary(signers: Signers, newBeneficiary: Address)
    | CallTransferAdmin(signers: Signers, newAdmin: Address)
    | AdvanceLedger(to: u32)
    | OutsideTransfer(src: Address, dst: Address, amount: nat)

  function Step(w: World, c: Call): World {
    match c
    case CallInitialize(sg, t, ok) => After(Initialize(w, sg, t, ok), w)
    case CallRelease(sg, ok) => After(Release(w, sg, ok), w)
    case CallRevoke(sg, ok) => After(Revoke(w, sg, ok), w)
    case CallEmergencyWithdraw(sg, ok) => After(EmergencyWithdraw(w, sg, ok), w)
    case CallTransferBeneficiary(sg, nb) => After(TransferBeneficiary(w, sg, nb), w)
    case CallTransferAdmin(sg, na) => After(TransferAdmin(w, sg, na), w)
    case AdvanceLedger(to) => if to > w.ledger then w.(ledger := to) else w
    case OutsideTransfer(src, dst, amount) =>
      if src == Self then w
      else
        var paid := Pay(w.book, src, dst, amount, if dst == Self then Donation else Unrelated, true);
        if paid.Ok? then w.(book := paid.value) else w
  }

  /** A wallet just deployed: nothing stored, nothing transferred, any holdings, any ledger. */
  predicate Deployment(w: World) {
    w.wallet == EMPTY_STORAGE && w.book.log == []
  }
}
