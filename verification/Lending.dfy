/** The deposit-loan pallet as a state machine: what each call does to the storage cells,
    when it refuses, and when the code faults (divides by zero, fails an unwrap or expect,
    or leaves the u128 range in unchecked arithmetic). */
module Lending {
  import opened Base
  import opened Sums
  import opened Ledger
  import opened Conservation
  import opened LoanMath

  datatype LoanHealth = Well | Warning(ltv: nat) | Liquidating(ltv: nat)

  datatype Loan = Loan(id: LoanId, who: AccountId, original: nat, available: nat, debt: nat, status: LoanHealth)

  /** The cells only an administrator sets; fixed during a run. */
  datatype Config = Config(
    collectionAsset: AssetId,
    collectionAccount: AccountId,
    collateralAsset: AssetId,
    loanAsset: AssetId,
    pawnShop: AccountId,
    profitPool: AccountId,
    liquidationAccount: AccountId,
    ltvLimit: nat,
    liquidationThreshold: nat,
    warningThreshold: nat,
    loanCap: Option<nat>,
    minimumCollateral: nat,
    liquidationPenalty: nat)

  datatype World = World(
    book: Book,
    loans: map<LoanId, Loan>,
    byAccount: map<AccountId, seq<LoanId>>,
    liquidating: seq<LoanId>,
    nextLoanId: nat,
    totalLoan: nat,
    totalCollateral: nat,
    marketDtoken: nat,
    totalDtoken: nat,
    userDtoken: map<AccountId, nat>,
    bonusTime: nat,
    loanRate: nat,
    savingRate: nat)

  predicate WellConfigured(c: Config) {
    && c.collateralAsset != c.collectionAsset && c.collateralAsset != c.loanAsset
    && 0 < c.ltvLimit < PREC
    && c.minimumCollateral >= 1
  }

  // ---------- what holds between any two calls ----------

  function IdsOf(byAccount: map<AccountId, seq<LoanId>>, who: AccountId): seq<LoanId> {
    if who in byAccount then byAccount[who] else []
  }

  ghost function Debts(loans: map<LoanId, Loan>): map<LoanId, nat> {
    map id | id in loans :: loans[id].debt
  }

  ghost function Originals(loans: map<LoanId, Loan>): map<LoanId, nat> {
    map id | id in loans :: loans[id].original
  }

  /** Live loans carry their own id and always have some, and no more than the original, collateral available. */
  ghost predicate LoansSound(loans: map<LoanId, Loan>, nextLoanId: nat) {
    forall id :: id in loans ==>
      loans[id].id == id < nextLoanId && 1 <= loans[id].available <= loans[id].original
  }

  /** A list of exactly one owner's live loans, each once. */
  ghost predicate ListExact(loans: map<LoanId, Loan>, who: AccountId, list: seq<LoanId>) {
    NoDup(list) && forall id :: id in list <==> id in loans && loans[id].who == who
  }

  /** LoansByAccount is the inverse of the owner field. */
  ghost predicate IndexExact(loans: map<LoanId, Loan>, byAccount: map<AccountId, seq<LoanId>>) {
    forall who: AccountId :: ListExact(loans, who, IdsOf(byAccount, who))
  }

  /** LiquidatingLoans lists exactly the live loans with status Liquidating, each once. */
  ghost predicate LiquidationExact(loans: map<LoanId, Loan>, liquidating: seq<LoanId>) {
    NoDup(liquidating) && forall id :: id in liquidating <==> id in loans && loans[id].status.Liquidating?
  }

  ghost predicate TotalsCover(w: World) {
    Sum(Debts(w.loans)) <= w.totalLoan < U128_BOUND && Sum(Originals(w.loans)) <= w.totalCollateral < U128_BOUND
  }

  ghost predicate Consistent(w: World) {
    && Sound(w.book)
    && LoansSound(w.loans, w.nextLoanId)
    && IndexExact(w.loans, w.byAccount)
    && LiquidationExact(w.loans, w.liquidating)
    && TotalsCover(w)
  }

  lemma LoanWithinTotals(w: World, id: LoanId)
    requires TotalsCover(w) && id in w.loans
    ensures w.loans[id].debt <= w.totalLoan && w.loans[id].original <= w.totalCollateral
  {
    SumRemove(Debts(w.loans), id);
    SumRemove(Originals(w.loans), id);
  }

  function Cash(c: Config, b: Book): nat {
    Free(b, c.collectionAsset, c.collectionAccount)
  }

  // ---------- saving ----------

  function MintedDtoken(w: World, amount: nat): nat {
    if w.totalDtoken == 0 then amount else amount * w.marketDtoken / w.totalDtoken
  }

  predicate StakeFaults(c: Config, w: World, who: AccountId, amount: nat) {
    && 0 < amount <= Free(w.book, c.collectionAsset, who)
    && (|| (w.totalDtoken != 0 && amount * w.marketDtoken >= U128_BOUND)
        || At(w.userDtoken, who) + MintedDtoken(w, amount) >= U128_BOUND
        || w.marketDtoken + MintedDtoken(w, amount) >= U128_BOUND
        || w.marketDtoken + amount >= U128_BOUND)
  }

  /** The new total is the old market amount plus the stake. */
  function CreateStaking(c: Config, w: World, who: AccountId, amount: nat): (DispatchResult, World) {
    if amount == 0 then (Err(ZeroSaving), w)
    else if Free(w.book, c.collectionAsset, who) < amount then (Err(InsufficientBalance), w)
    else (Ok, w.(book := Moved(w.book, c.collectionAsset, who, c.collectionAccount, amount),
                 userDtoken := w.userDtoken[who := At(w.userDtoken, who) + MintedDtoken(w, amount)],
                 marketDtoken := w.marketDtoken + MintedDtoken(w, amount),
                 totalDtoken := w.marketDtoken + amount))
  }

  function Staking(c: Config, w: World, who: AccountId, asset: AssetId, amount: nat): (DispatchResult, World) {
    if asset != c.collectionAsset then (Err(WrongAsset), w)
    else if Free(w.book, asset, who) < amount then (Err(InsufficientBalance), w)
    else CreateStaking(c, w, who, amount)
  }

  /** Both divisions of a redeem are defined. */
  predicate Redeemable(w: World) {
    w.totalDtoken > 0 && w.marketDtoken / w.totalDtoken > 0
  }

  function WillGet(w: World, who: AccountId): nat
    requires Redeemable(w)
  {
    At(w.userDtoken, who) / (w.marketDtoken / w.totalDtoken)
  }

  /** Pays out everything a saver holds and lowers the counters; the saver's own entry stays. */
  function RedeemAll(c: Config, w: World, who: AccountId): (DispatchResult, World)
    requires Redeemable(w)
  {
    var held, get := At(w.userDtoken, who), WillGet(w, who);
    if Cash(c, w.book) < get then (Err(SavingBalanceShort), w)
    else if w.totalDtoken < held then (Err(TotalDtokenShort), w)
    else if w.marketDtoken < held then (Err(MarketDtokenShort), w)
    else
      QuotientAtMost(held, w.marketDtoken / w.totalDtoken);
      (Ok, w.(book := Moved(w.book, c.collectionAsset, c.collectionAccount, who, get),
              totalDtoken := w.totalDtoken - get,
              marketDtoken := w.marketDtoken - held))
  }

  lemma QuotientAtMost(a: nat, b: nat)
    requires b > 0
    ensures a / b <= a
  {
    FloorAntitone(a, 1, b);
  }

  /** The checks of redeem before any division or write. */
  predicate RedeemChecked(c: Config, w: World, asset: AssetId, amount: nat) {
    Cash(c, w.book) >= amount && asset == c.collectionAsset
  }

  predicate RedeemFaults(c: Config, w: World, who: AccountId, asset: AssetId, amount: nat) {
    && RedeemChecked(c, w, asset, amount)
    && (!Redeemable(w)
        || (WillGet(w, who) >= amount && StakeFaults(c, RedeemAll(c, w, who).1, who, WillGet(w, who) - amount)))
  }

  /** Redeem everything, stake the rest again; both inner results are discarded. */
  function Redeeming(c: Config, w: World, who: AccountId, asset: AssetId, amount: nat): (DispatchResult, World)
    requires !RedeemFaults(c, w, who, asset, amount)
  {
    if Cash(c, w.book) < amount then (Err(NotEnoughToRedeem), w)
    else if asset != c.collectionAsset then (Err(WrongAsset), w)
    else if WillGet(w, who) < amount then (Err(RedeemTooMuch), w)
    else (Ok, CreateStaking(c, RedeemAll(c, w, who).1, who, WillGet(w, who) - amount).1)
  }

  // ---------- borrowing ----------

  predicate ApplyChecked(c: Config, w: World, loan: nat) {
    Cash(c, w.book) >= loan && !(c.loanCap.Some? && w.totalLoan >= c.loanCap.value)
  }

  predicate QuoteOverflows(collateral: nat, loan: nat, price: nat, limit: nat) {
    if collateral == 0 then loan * PREC >= U128_BOUND
    else if loan == 0 then collateral * price * limit >= U128_BOUND
    else loan * PREC >= U128_BOUND || collateral * price >= U128_BOUND
  }

  predicate ApplyFaults(c: Config, w: World, who: AccountId, collateral: nat, loan: nat, price: nat)
    requires price > 0 && c.ltvLimit > 0
  {
    && ApplyChecked(c, w, loan) && (collateral != 0 || loan != 0)
    && (QuoteOverflows(collateral, loan, price, c.ltvLimit)
        || (var q := Quote(collateral, loan, price, c.ltvLimit);
            && q.Success? && collateral >= c.minimumCollateral
            && Free(w.book, c.collateralAsset, who) >= q.value.collateral
            && (|| w.nextLoanId + 1 >= U64_BOUND
                || w.totalLoan + q.value.loan >= U128_BOUND
                || w.totalCollateral + q.value.collateral >= U128_BOUND)))
  }

  /** What an admitted application does: collateral to the shop, the next id, cash to the
      borrower. The cash handed out is the amount asked for, also when that is 0. */
  function Opening(c: Config, w: World, who: AccountId, q: CollateralLoan, loan: nat, price: nat)
      : (DispatchResult, World)
    requires c.collateralAsset != c.collectionAsset && Cash(c, w.book) >= loan
    requires price > 0 && loan / price <= q.collateral
  {
    if Free(w.book, c.collateralAsset, who) < q.collateral then (Err(InsufficientBalance), w)
    else
      var paidIn := Moved(w.book, c.collateralAsset, who, c.pawnShop, q.collateral);
      var l := Loan(w.nextLoanId, who, q.collateral, q.collateral - loan / price, q.loan, Well);
      (Ok, w.(book := Moved(paidIn, c.collectionAsset, c.collectionAccount, who, loan),
              loans := w.loans[l.id := l],
              byAccount := w.byAccount[who := IdsOf(w.byAccount, who) + [l.id]],
              nextLoanId := w.nextLoanId + 1,
              totalLoan := w.totalLoan + q.loan,
              totalCollateral := w.totalCollateral + q.collateral))
  }

  function Applying(c: Config, w: World, who: AccountId, collateral: nat, loan: nat, price: nat)
      : (DispatchResult, World)
    requires WellConfigured(c) && price > 0
  {
    if Cash(c, w.book) < loan then (Err(NotEnoughToLoan), w)
    else if c.loanCap.Some? && w.totalLoan >= c.loanCap.value then (Err(ReachLoanCap), w)
    else match Quote(collateral, loan, price, c.ltvLimit)
      case Failure(e) => (Err(e), w)
      case Success(q) =>
        if collateral < c.minimumCollateral then (Err(BelowMinimumCollateral), w)
        else
          AdmittedLeavesCollateral(collateral, loan, price, c.ltvLimit);
          Opening(c, w, who, q, loan, price)
  }

  /** Every check of repay passes but the shop cannot return the whole collateral:
      the early check looks at the available, the payout at the original collateral. */
  predicate RepayRollsBack(c: Config, w: World, who: AccountId, id: LoanId) {
    && id in w.loans && w.loans[id].who == who
    && Free(w.book, c.loanAsset, who) >= w.loans[id].debt
    && id !in w.liquidating
    && w.loans[id].available <= Free(w.book, c.collateralAsset, c.pawnShop) < w.loans[id].original
  }

  predicate RepayFaults(c: Config, w: World, who: AccountId, id: LoanId) {
    && RepayRollsBack(c, w, who, id)
    && (w.totalLoan + w.loans[id].debt >= U128_BOUND || w.totalCollateral + w.loans[id].available >= U128_BOUND)
  }

  /** The end of a repayment once the debt is paid in and the loan is off its owner's list: the
      collateral goes out and the loan is closed, or the closure puts the loan back and raises
      totals from which nothing had been subtracted, and the debt is sent back. */
  function Closing(c: Config, w: World, l: Loan): (DispatchResult, World)
    requires Free(w.book, c.loanAsset, c.collectionAccount) >= l.debt
    requires l.debt <= w.totalLoan && l.original <= w.totalCollateral
  {
    if Free(w.book, c.collateralAsset, c.pawnShop) < l.original then
      (Err(InsufficientBalance),
       w.(book := Moved(w.book, c.loanAsset, c.collectionAccount, l.who, l.debt),
          byAccount := w.byAccount[l.who := IdsOf(w.byAccount, l.who) + [l.id]],
          totalLoan := w.totalLoan + l.debt,
          totalCollateral := w.totalCollateral + l.available))
    else
      (Ok, w.(book := Moved(w.book, c.collateralAsset, c.pawnShop, l.who, l.original),
              loans := w.loans - {l.id},
              totalLoan := w.totalLoan - l.debt,
              totalCollateral := w.totalCollateral - l.original))
  }

  function PaidIn(c: Config, w: World, l: Loan): World
    requires Free(w.book, c.loanAsset, l.who) >= l.debt
  {
    w.(book := Moved(w.book, c.loanAsset, l.who, c.collectionAccount, l.debt),
       byAccount := w.byAccount[l.who := Without(IdsOf(w.byAccount, l.who), l.id)])
  }

  function Repaying(c: Config, w: World, who: AccountId, id: LoanId): (DispatchResult, World)
    requires WellConfigured(c) && Consistent(w)
  {
    if id !in w.loans then (Err(InvalidLoanId), w)
    else
      var l := w.loans[id];
      if l.who != who then (Err(NotLoanOwner), w)
      else if Free(w.book, c.loanAsset, who) < l.debt then (Err(NotEnoughToRepay), w)
      else if Free(w.book, c.collateralAsset, c.pawnShop) < l.available then (Err(ShopCollateralShort), w)
      else if id in w.liquidating then (Err(LoanInLiquidation), w)
      else
        LoanWithinTotals(w, id);
        Closing(c, PaidIn(c, w, l), l)
  }

  predicate DrawFaults(c: Config, w: World, who: AccountId, id: LoanId, amount: nat, price: nat) {
    var p := price % U32_BOUND;
    && id in w.loans && w.loans[id].who == who
    && (|| w.loans[id].available * p * c.ltvLimit >= U128_BOUND
        || (amount <= Credit(w.loans[id].available, p, c.ltvLimit)
            && (p == 0 || w.totalLoan + amount >= U128_BOUND)))
  }

  /** Raises the debt and lowers the available collateral; no money moves. The price is cut to 32 bits. */
  function Drawing(c: Config, w: World, who: AccountId, id: LoanId, amount: nat, price: nat): (DispatchResult, World)
    requires WellConfigured(c) && LoansSound(w.loans, w.nextLoanId)
    requires !DrawFaults(c, w, who, id, amount, price)
  {
    if id !in w.loans then (Err(InvalidLoanId), w)
    else
      var l, p := w.loans[id], price % U32_BOUND;
      if l.who != who then (Err(NotLoanOwner), w)
      else if amount > Credit(l.available, p, c.ltvLimit) then (Err(ShortOfCredit), w)
      else
        DrawLeavesCollateral(l.available, amount, p, c.ltvLimit);
        (Ok, w.(loans := w.loans[id := l.(debt := l.debt + amount, available := l.available - amount / p)],
                totalLoan := w.totalLoan + amount))
  }

  predicate AddFaults(c: Config, w: World, who: AccountId, id: LoanId, amount: nat) {
    && id in w.loans && w.loans[id].who == who && Free(w.book, c.collectionAsset, who) >= amount
    && w.totalCollateral + amount >= U128_BOUND
  }

  /** Credits collateral, but what moves to the shop is the collection asset. */
  function Credited(c: Config, w: World, l: Loan, amount: nat): World
    requires Free(w.book, c.collectionAsset, l.who) >= amount
  {
    w.(book := Moved(w.book, c.collectionAsset, l.who, c.pawnShop, amount),
       loans := w.loans[l.id := l.(original := l.original + amount, available := l.available + amount)],
       totalCollateral := w.totalCollateral + amount)
  }

  function AddingCollateral(c: Config, w: World, who: AccountId, id: LoanId, amount: nat): (DispatchResult, World)
    requires LoansSound(w.loans, w.nextLoanId)
  {
    if id !in w.loans then (Err(InvalidLoanId), w)
    else if w.loans[id].who != who then (Err(NotLoanOwner), w)
    else if Free(w.book, c.collectionAsset, who) < amount then (Err(InsufficientBalance), w)
    else (Ok, Credited(c, w, w.loans[id], amount))
  }

  // ---------- liquidation ----------

  function Penalty(c: Config, leftover: nat): nat {
    leftover * c.liquidationPenalty / 100
  }

  predicate LiquidatePasses(c: Config, w: World, caller: AccountId, id: LoanId, auction: nat) {
    && caller == c.liquidationAccount && id in w.loans && id in w.liquidating
    && Free(w.book, c.loanAsset, caller) >= auction >= w.loans[id].debt
  }

  /** What the collection account holds once a liquidated debt is in. */
  function CashAfterDebt(c: Config, b: Book, caller: AccountId, debt: nat): nat {
    Free(b, c.loanAsset, c.collectionAccount) + if caller == c.collectionAccount then 0 else debt
  }

  /** The penalty is only subtracted from the surplus after it has been paid. */
  predicate LiquidateFaults(c: Config, w: World, caller: AccountId, id: LoanId, auction: nat) {
    && LiquidatePasses(c, w, caller, id, auction)
    && (var l := w.loans[id];
        PayoutFaults(c, w.book, l, caller, auction - l.debt))
  }

  predicate PayoutFaults(c: Config, b: Book, l: Loan, caller: AccountId, leftover: nat) {
    || leftover * c.liquidationPenalty >= U128_BOUND
    || leftover < Penalty(c, leftover) <= CashAfterDebt(c, b, caller, l.debt)
  }

  /** The last payout, to the loan's owner. When it fails the code takes the penalty back from
      the profit pool and then sends the caller the loan's collateral out of the shop. */
  function PayRemainder(c: Config, b: Book, l: Loan, caller: AccountId, rest: nat, penalty: nat)
      : (DispatchResult, Book) {
    var (second, b2) := Transfer(b, c.loanAsset, c.collectionAccount, l.who, rest);
    if second.Ok? then (Ok, b2)
    else
      var (third, b3) := Transfer(b2, c.loanAsset, c.profitPool, caller, penalty);
      if third.Err? then (third, b3)
      else (Err(InsufficientBalance), Transfer(b3, c.collateralAsset, c.pawnShop, caller, l.original).1)
  }

  /** The money side of mark_liquidated after its checks: debt in, penalty and remainder out of the
      collection account, each failing payout followed by the compensations the code attempts. */
  function Payout(c: Config, b: Book, l: Loan, caller: AccountId, auction: nat): (DispatchResult, Book)
    requires Free(b, c.loanAsset, caller) >= auction >= l.debt
  {
    var paid := Moved(b, c.loanAsset, caller, c.collectionAccount, l.debt);
    var leftover := auction - l.debt;
    if leftover == 0 then (Ok, paid)
    else
      var penalty := Penalty(c, leftover);
      var (first, b1) := Transfer(paid, c.loanAsset, c.collectionAccount, c.profitPool, penalty);
      if first.Err? then (first, Transfer(b1, c.loanAsset, c.pawnShop, caller, l.debt).1)
      else
        PayRemainder(c, b1, l, caller, if leftover >= penalty then leftover - penalty else 0, penalty)
  }

  /** Takes the loan out of every table; TotalLoan and TotalCollateral keep counting it. */
  function MarkingLiquidated(c: Config, w: World, caller: AccountId, id: LoanId, auction: nat): (DispatchResult, World)
  {
    if caller != c.liquidationAccount then (Err(LiquidationAccountOnly), w)
    else if id !in w.loans then (Err(InvalidLoanId), w)
    else if id !in w.liquidating then (Err(NotInLiquidation), w)
    else if Free(w.book, c.loanAsset, caller) < auction then (Err(NotEnoughToLiquidate), w)
    else if auction < w.loans[id].debt then (Err(NotEnoughToLiquidate), w)
    else
      var l := w.loans[id];
      var (r, b) := Payout(c, w.book, l, caller, auction);
      if r.Err? then (r, w.(book := b))
      else (Ok, w.(book := b,
                   loans := w.loans - {id},
                   byAccount := w.byAccount[l.who := Without(IdsOf(w.byAccount, l.who), id)],
                   liquidating := Without(w.liquidating, id)))
  }

  // ---------- each block: scan ----------

  function HealthAt(ltv: nat, liquidation: nat, warning: nat): LoanHealth {
    if ltv >= liquidation then Liquidating(ltv) else if ltv >= warning then Warning(ltv) else Well
  }

  predicate LoanScannable(l: Loan, price: nat) {
    && 0 < l.available * price < U128_BOUND && l.debt * PREC < U128_BOUND
    && Ltv(l.available, l.debt, price) < U64_BOUND
  }

  function Health(c: Config, l: Loan, price: nat): LoanHealth
    requires l.available * price != 0
  {
    HealthAt(Ltv(l.available, l.debt, price), c.liquidationThreshold, c.warningThreshold)
  }

  /** A loan after a scan: once liquidating it is left alone, and getting well again is not recorded. */
  function Rescored(c: Config, l: Loan, price: nat): Loan
    requires l.available * price != 0
  {
    if l.status.Liquidating? || Health(c, l, price).Well? then l else l.(status := Health(c, l, price))
  }

  predicate NewlyLiquidating(c: Config, l: Loan, price: nat)
    requires l.available * price != 0
  {
    !l.status.Liquidating? && Health(c, l, price).Liquidating?
  }

  predicate ScanFaults(w: World, price: nat) {
    exists id :: id in w.loans && !w.loans[id].status.Liquidating? && !LoanScannable(w.loans[id], price)
  }

  /** The new liquidations in the order the scan meets them. */
  function NewIn(c: Config, loans: map<LoanId, Loan>, price: nat, order: seq<LoanId>): seq<LoanId>
    requires forall id :: id in order ==> id in loans && loans[id].available * price != 0
  {
    if order == [] then []
    else
      var rest := NewIn(c, loans, price, order[1..]);
      if NewlyLiquidating(c, loans[order[0]], price) then [order[0]] + rest else rest
  }

  function Rescan(c: Config, loans: map<LoanId, Loan>, price: nat): map<LoanId, Loan>
    requires forall id :: id in loans ==> loans[id].available * price != 0
  {
    map id | id in loans :: Rescored(c, loans[id], price)
  }

  /** on_each_block for a positive price: every loan rescored at once. */
  function Scanned(c: Config, w: World, price: nat, order: seq<LoanId>): World
    requires forall id :: id in w.loans ==> w.loans[id].available * price != 0
    requires Enumerates(order, w.loans.Keys)
  {
    w.(loans := Rescan(c, w.loans, price), liquidating := w.liquidating + NewIn(c, w.loans, price, order))
  }

  // ---------- each block: interest ----------

  predicate ChargeOneFaults(c: Config, w: World, id: LoanId, interest: nat, total: nat, price: nat) {
    id in w.loans &&
    (|| total * PREC >= U128_BOUND || total == 0
     || interest * w.loans[id].debt >= U128_BOUND
     || DrawFaults(c, w, w.loans[id].who, id, Share(interest, w.loans[id].debt, total), price)
     || w.totalDtoken + Share(interest, w.loans[id].debt, total) >= U128_BOUND)
  }

  /** One turn of the interest loop: a draw and a transfer whose failures are ignored, then the counter. */
  function ChargeOne(c: Config, w: World, id: LoanId, interest: nat, total: nat, price: nat): World
    requires WellConfigured(c) && LoansSound(w.loans, w.nextLoanId) && id in w.loans
    requires !ChargeOneFaults(c, w, id, interest, total, price)
  {
    var l := w.loans[id];
    var amount := Share(interest, l.debt, total);
    var drawn := Drawing(c, w, l.who, id, amount, price).1;
    drawn.(book := Transfer(drawn.book, c.collectionAsset, l.who, c.collectionAccount, amount).1,
           totalDtoken := drawn.totalDtoken + amount)
  }

  /** How much of a loan's share is really added to its debt. */
  function DrawnShare(c: Config, l: Loan, interest: nat, total: nat, price: nat): nat
    requires total > 0
  {
    var amount := Share(interest, l.debt, total);
    if amount <= Credit(l.available, price % U32_BOUND, c.ltvLimit) then amount else 0
  }
}
