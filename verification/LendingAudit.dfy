/** What the counters of deposit-loan count over whole runs, and when the pawn shop can always
    return a loan's collateral. */
module LendingAudit {
  import opened Base
  import opened Sums
  import opened Ledger
  import opened Conservation
  import opened LoanMath
  import opened Lending
  import opened LendingInvariant
  import opened LendingBlock
  import opened LendingRuns

  /** Sums the storage no longer shows. debt and collateral: of loans marked liquidated, and what
      a rolled-back repayment raised the totals by. added: collateral recorded that never reached
      the shop. given: collateral the shop lost to a failed liquidation. retired: dtokens paid out
      while the saver's entry stayed. */
  datatype Audit = Audit(debt: nat, collateral: nat, added: nat, given: nat, retired: nat)

  /** Both totals are the live sums plus what the audit remembers. */
  ghost predicate TotalsCount(w: World, a: Audit) {
    && w.totalLoan == Sum(Debts(w.loans)) + a.debt
    && w.totalCollateral == Sum(Originals(w.loans)) + a.collateral
  }

  /** The two dtoken counters agree, and the savers' entries are worth them plus what was retired. */
  ghost predicate SavingsCount(w: World, a: Audit) {
    w.marketDtoken == w.totalDtoken && Sum(w.userDtoken) == w.marketDtoken + a.retired
  }

  ghost predicate Accounted(w: World, a: Audit) {
    TotalsCount(w, a) && SavingsCount(w, a)
  }

  function InShop(c: Config, w: World): nat {
    Free(w.book, c.collateralAsset, c.pawnShop)
  }

  /** The shop holds the recorded collateral, up to what never came and what was given away. */
  ghost predicate Covered(c: Config, w: World, a: Audit) {
    InShop(c, w) + a.added + a.given >= w.totalCollateral
  }

  function Fallen(before: nat, after: nat): nat {
    if before > after then before - after else 0
  }

  ghost function NextAudit(c: Config, w: World, op: Op, a: Audit): Audit
    requires CanRun(c, w, op)
  {
    var (r, n) := Exec(c, w, op);
    match op
    case Redeem(who, _, _) =>
      if r.Ok? && RedeemAll(c, w, who).0.Ok? then a.(retired := a.retired + At(w.userDtoken, who)) else a
    case Repay(who, id) =>
      if RepayRollsBack(c, w, who, id) then
        var l := w.loans[id];
        a.(debt := a.debt + l.debt, collateral := a.collateral + l.available, added := a.added + l.available)
      else a
    case AddCollateral(_, _, amount) =>
      if r.Ok? then a.(added := a.added + amount) else a
    case MarkLiquidated(_, id, _) =>
      if r.Ok? then a.(debt := a.debt + w.loans[id].debt, collateral := a.collateral + w.loans[id].original)
      else a.(given := a.given + Fallen(InShop(c, w), InShop(c, n)))
    case _ => a
  }

  // ---------- savings, in every run ----------

  lemma StakeSaves(c: Config, w: World, a: Audit, who: AccountId, amount: nat)
    requires SavingsCount(w, a)
    ensures SavingsCount(CreateStaking(c, w, who, amount).1, a)
  {
    if 0 < amount <= Free(w.book, c.collectionAsset, who) {
      SumUpdate(w.userDtoken, who, At(w.userDtoken, who) + MintedDtoken(w, amount));
      if w.totalDtoken > 0 { SameRatio(amount, w.totalDtoken); }
    }
  }

  lemma SameRatio(x: nat, y: nat)
    requires y > 0
    ensures x * y / y == x && y / y == 1
  {
    assert x * y == y * x;
    ExactQuotient(y, x);
    ExactQuotient(y, 1);
  }

  lemma OneDivides(x: nat)
    ensures x / 1 == x
  {
  }

  /** While the counters agree a saver's dtokens are worth their number. */
  lemma WorthTheirNumber(w: World, who: AccountId)
    requires w.marketDtoken == w.totalDtoken && Redeemable(w)
    ensures WillGet(w, who) == At(w.userDtoken, who)
  {
    SameRatio(0, w.totalDtoken);
    OneDivides(At(w.userDtoken, who));
  }

  lemma RedeemAllSaves(c: Config, w: World, a: Audit, who: AccountId)
    requires SavingsCount(w, a) && Redeemable(w)
    ensures SavingsCount(RedeemAll(c, w, who).1,
                         if RedeemAll(c, w, who).0.Ok? then a.(retired := a.retired + At(w.userDtoken, who)) else a)
  {
    WorthTheirNumber(w, who);
  }

  lemma RedeemSaves(c: Config, w: World, a: Audit, op: Op)
    requires CanRun(c, w, op) && op.Redeem? && SavingsCount(w, a)
    ensures SavingsCount(Exec(c, w, op).1, NextAudit(c, w, op, a))
  {
    var (r, n) := Exec(c, w, op);
    if r.Ok? {
      var get, m := WillGet(w, op.who), RedeemAll(c, w, op.who).1;
      RedeemAllSaves(c, w, a, op.who);
      StakeSaves(c, m, NextAudit(c, w, op, a), op.who, get - op.amount);
    }
  }

  lemma OthersSpareSavings(c: Config, w: World, op: Op)
    requires CanRun(c, w, op) && !op.Stake? && !op.Redeem?
    ensures var n := Exec(c, w, op).1;
            n.marketDtoken == w.marketDtoken && n.totalDtoken == w.totalDtoken && n.userDtoken == w.userDtoken
  {
    if op.NewBlock? { BlockEffect(c, w, op.price, op.order, op.now); }
  }

  lemma ExecSaves(c: Config, w: World, a: Audit, op: Op)
    requires CanRun(c, w, op) && SavingsCount(w, a)
    ensures SavingsCount(Exec(c, w, op).1, NextAudit(c, w, op, a))
  {
    match op
    case Stake(who, asset, amount) => StakeSaves(c, w, a, who, amount);
    case Redeem(_, _, _) => RedeemSaves(c, w, a, op);
    case _ => OthersSpareSavings(c, w, op);
  }

  // ---------- totals, in every run ----------

  lemma RepayCounts(c: Config, w: World, a: Audit, who: AccountId, id: LoanId)
    requires CanRun(c, w, Repay(who, id)) && TotalsCount(w, a)
    ensures TotalsCount(Exec(c, w, Repay(who, id)).1, NextAudit(c, w, Repay(who, id), a))
  {
    if id in w.loans && w.loans[id].who == who && Free(w.book, c.loanAsset, who) >= w.loans[id].debt {
      RepaidBook(c, w.book, w.loans[id]);
      DropLoan(w.loans, id);
    }
  }

  /** Saving, and what others do to the ledger, touch no loan and no total. */
  lemma SavingSparesTotals(c: Config, w: World, op: Op)
    requires CanRun(c, w, op) && (op.Stake? || op.Redeem? || op.Outside?)
    ensures var n := Exec(c, w, op).1;
            n.loans == w.loans && n.totalLoan == w.totalLoan && n.totalCollateral == w.totalCollateral
  {
    if op.Redeem? { RedeemSparesTotals(c, w, op.who, op.asset, op.amount); }
  }

  lemma RedeemSparesTotals(c: Config, w: World, who: AccountId, asset: AssetId, amount: nat)
    requires !RedeemFaults(c, w, who, asset, amount)
    ensures var n := Redeeming(c, w, who, asset, amount).1;
            n.loans == w.loans && n.totalLoan == w.totalLoan && n.totalCollateral == w.totalCollateral
  {
  }

  lemma LiquidatedCounts(c: Config, w: World, a: Audit, op: Op)
    requires CanRun(c, w, op) && op.MarkLiquidated? && TotalsCount(w, a)
    ensures TotalsCount(Exec(c, w, op).1, NextAudit(c, w, op, a))
  {
    if Exec(c, w, op).0.Ok? { DropLoan(w.loans, op.id); }
  }

  lemma BlockCounts(c: Config, w: World, a: Audit, op: Op)
    requires CanRun(c, w, op) && op.NewBlock? && TotalsCount(w, a)
    ensures TotalsCount(Exec(c, w, op).1, NextAudit(c, w, op, a))
  {
    BlockEffect(c, w, op.price, op.order, op.now);
    RescanKeepsAmounts(c, w.loans, op.price);
  }

  /** Applying, drawing and adding collateral write one loan and as much to the totals. */
  lemma OneLoanCounts(c: Config, w: World, a: Audit, op: Op)
    requires CanRun(c, w, op) && (op.Apply? || op.Draw? || op.AddCollateral?) && TotalsCount(w, a)
    ensures TotalsCount(Exec(c, w, op).1, NextAudit(c, w, op, a))
  {
    var (r, n) := Exec(c, w, op);
    if r.Ok? {
      var id := if op.Apply? then w.nextLoanId else op.id;
      assert n.loans == w.loans[id := n.loans[id]];
      PutLoan(w.loans, id, n.loans[id]);
    }
  }

  lemma ExecCounts(c: Config, w: World, a: Audit, op: Op)
    requires CanRun(c, w, op) && TotalsCount(w, a)
    ensures TotalsCount(Exec(c, w, op).1, NextAudit(c, w, op, a))
  {
    match op
    case Repay(who, id) => RepayCounts(c, w, a, who, id);
    case MarkLiquidated(_, _, _) => LiquidatedCounts(c, w, a, op);
    case NewBlock(_, _, _) => BlockCounts(c, w, a, op);
    case Apply(_, _, _, _) => OneLoanCounts(c, w, a, op);
    case Draw(_, _, _, _) => OneLoanCounts(c, w, a, op);
    case AddCollateral(_, _, _) => OneLoanCounts(c, w, a, op);
    case _ => SavingSparesTotals(c, w, op);
  }

  ghost function AuditOf(c: Config, w: World, a: Audit, ops: seq<Op>): Audit
    requires Runnable(c, w, ops)
    decreases |ops|
  {
    if ops == [] then a else AuditOf(c, Exec(c, w, ops[0]).1, NextAudit(c, w, ops[0], a), ops[1..])
  }

  /** Over every run, whoever borrows, pays or is liquidated and whatever fails: TotalLoan and
      TotalCollateral are the live sums plus the audit, MarketDtoken equals TotalDtoken, and the
      savers' dtokens are MarketDtoken plus what was paid out without being cleared. */
  lemma {:induction false} RunAccounted(c: Config, w: World, a: Audit, ops: seq<Op>)
    requires Consistent(w) && Accounted(w, a) && Runnable(c, w, ops)
    ensures Accounted(Run(c, w, ops), AuditOf(c, w, a, ops))
    decreases |ops|
  {
    if ops != [] {
      ExecConsistent(c, w, ops[0]);
      ExecSaves(c, w, a, ops[0]);
      ExecCounts(c, w, a, ops[0]);
      RunAccounted(c, Exec(c, w, ops[0]).1, NextAudit(c, w, ops[0], a), ops[1..]);
    }
  }

  // ---------- the shop's collateral ----------

  /** The shop is nobody's borrower account and no outside call takes collateral out of it. */
  predicate ShopLeftAlone(c: Config, op: Op) {
    match op
    case Apply(who, _, _, _) => who != c.pawnShop
    case Repay(who, _) => who != c.pawnShop
    case Outside(_, step) => !Takes(step, c.collateralAsset, c.pawnShop)
    case _ => true
  }

  lemma OtherAssetStays(b: Book, a: AssetId, from: AccountId, to: AccountId, x: nat, k: AssetId, who: AccountId)
    requires a != k && Free(b, a, from) >= x
    ensures Free(Moved(b, a, from, to, x), k, who) == Free(b, k, who)
  {
  }

  lemma PayoutSparesShop(c: Config, b: Book, l: Loan, caller: AccountId, auction: nat)
    requires WellConfigured(c) && Free(b, c.loanAsset, caller) >= auction >= l.debt
    requires Payout(c, b, l, caller, auction).0.Ok?
    ensures Free(Payout(c, b, l, caller, auction).1, c.collateralAsset, c.pawnShop)
         == Free(b, c.collateralAsset, c.pawnShop)
  {
    var paid := Moved(b, c.loanAsset, caller, c.collectionAccount, l.debt);
    OtherAssetStays(b, c.loanAsset, caller, c.collectionAccount, l.debt, c.collateralAsset, c.pawnShop);
    var penalty := Penalty(c, auction - l.debt);
    if auction > l.debt {
      var rest := if auction - l.debt >= penalty then auction - l.debt - penalty else 0;
      var b1 := Transfer(paid, c.loanAsset, c.collectionAccount, c.profitPool, penalty).1;
      OtherAssetStays(paid, c.loanAsset, c.collectionAccount, c.profitPool, penalty, c.collateralAsset, c.pawnShop);
      RemainderSparesShop(c, b1, l, caller, rest, penalty);
    }
  }

  lemma RemainderSparesShop(c: Config, b: Book, l: Loan, caller: AccountId, rest: nat, penalty: nat)
    requires WellConfigured(c) && PayRemainder(c, b, l, caller, rest, penalty).0.Ok?
    ensures Free(PayRemainder(c, b, l, caller, rest, penalty).1, c.collateralAsset, c.pawnShop)
         == Free(b, c.collateralAsset, c.pawnShop)
  {
    OtherAssetStays(b, c.loanAsset, c.collectionAccount, l.who, rest, c.collateralAsset, c.pawnShop);
  }

  lemma SavingSparesShop(c: Config, w: World, op: Op)
    requires CanRun(c, w, op) && (op.Stake? || op.Redeem? || op.Draw? || op.AddCollateral?)
    ensures InShop(c, Exec(c, w, op).1) == InShop(c, w)
  {
    if op.Redeem? && Exec(c, w, op).0.Ok? {
      var m := RedeemAll(c, w, op.who).1;
      assert InShop(c, m) == InShop(c, w);
    }
  }

  lemma ApplyCovered(c: Config, w: World, a: Audit, op: Op)
    requires CanRun(c, w, op) && op.Apply? && op.who != c.pawnShop && Covered(c, w, a)
    ensures Covered(c, Exec(c, w, op).1, a)
  {
    if Exec(c, w, op).0.Ok? {
      var q := Quote(op.collateral, op.loan, op.price, c.ltvLimit).value;
      var paidIn := Moved(w.book, c.collateralAsset, op.who, c.pawnShop, q.collateral);
      OtherAssetStays(paidIn, c.collectionAsset, c.collectionAccount, op.who, op.loan, c.collateralAsset, c.pawnShop);
    }
  }

  lemma RepayCovered(c: Config, w: World, a: Audit, op: Op)
    requires CanRun(c, w, op) && op.Repay? && op.who != c.pawnShop && Covered(c, w, a)
    ensures Covered(c, Exec(c, w, op).1, NextAudit(c, w, op, a))
  {
    var id := op.id;
    if id in w.loans && w.loans[id].who == op.who && Free(w.book, c.loanAsset, op.who) >= w.loans[id].debt {
      RepaidBook(c, w.book, w.loans[id]);
    }
  }

  lemma ExecCovered(c: Config, w: World, a: Audit, op: Op)
    requires CanRun(c, w, op) && Covered(c, w, a) && ShopLeftAlone(c, op)
    ensures Covered(c, Exec(c, w, op).1, NextAudit(c, w, op, a))
  {
    match op
    case Apply(_, _, _, _) => ApplyCovered(c, w, a, op);
    case Repay(_, _) => RepayCovered(c, w, a, op);
    case MarkLiquidated(caller, id, auction) =>
      if Exec(c, w, op).0.Ok? { PayoutSparesShop(c, w.book, w.loans[id], caller, auction); }
    case NewBlock(price, order, now) => BlockEffect(c, w, price, order, now);
    case Outside(ident, step) => OnlyTakingLowers(ident, w.book, step, c.collateralAsset, c.pawnShop);
    case _ => SavingSparesShop(c, w, op);
  }

  /** Over every run that leaves the shop alone, its collateral covers the recorded total up to
      what was recorded without arriving and what failed liquidations gave away. */
  lemma {:induction false} RunCovered(c: Config, w: World, a: Audit, ops: seq<Op>)
    requires Consistent(w) && Covered(c, w, a) && Runnable(c, w, ops)
    requires forall i :: 0 <= i < |ops| ==> ShopLeftAlone(c, ops[i])
    ensures Covered(c, Run(c, w, ops), AuditOf(c, w, a, ops))
    decreases |ops|
  {
    if ops != [] {
      ExecConsistent(c, w, ops[0]);
      ExecCovered(c, w, a, ops[0]);
      RunCovered(c, Exec(c, w, ops[0]).1, NextAudit(c, w, ops[0], a), ops[1..]);
    }
  }

  // ---------- no rollback, atomic errors ----------

  ghost predicate Solvent(c: Config, w: World, a: Audit) {
    Covered(c, w, a) && a.added == 0 && a.given == 0
  }

  /** A solvent shop can return every live loan's collateral. */
  lemma SolventNeverRollsBack(c: Config, w: World, a: Audit, who: AccountId, id: LoanId)
    requires Consistent(w) && Solvent(c, w, a)
    ensures !RepayRollsBack(c, w, who, id)
  {
    if id in w.loans { LoanWithinTotals(w, id); }
  }

  /** Nor can a new loan's collateral push the recorded total out of range: the shop would hold
      as much, and the supply is conserved. */
  lemma CollateralTotalFits(c: Config, w: World, a: Audit, who: AccountId, collateral: nat)
    requires Consistent(w) && Solvent(c, w, a) && who != c.pawnShop
    requires Free(w.book, c.collateralAsset, who) >= collateral
    ensures w.totalCollateral + collateral < U128_BOUND
  {
    BalancesFit(w.book, c.collateralAsset, who, c.pawnShop);
  }

  lemma {:induction false} GivenOnlyGrows(c: Config, w: World, a: Audit, ops: seq<Op>)
    requires Runnable(c, w, ops)
    ensures AuditOf(c, w, a, ops).given >= a.given
    decreases |ops|
  {
    if ops != [] { GivenOnlyGrows(c, Exec(c, w, ops[0]).1, NextAudit(c, w, ops[0], a), ops[1..]); }
  }

  /** A run that leaves the shop alone, uses no add_collateral, and in which no failed liquidation
      gave the shop's collateral away. */
  ghost predicate KeepsCollateral(c: Config, w: World, a: Audit, ops: seq<Op>)
    requires Runnable(c, w, ops)
  {
    && (forall i :: 0 <= i < |ops| ==> ShopLeftAlone(c, ops[i]) && !ops[i].AddCollateral?)
    && AuditOf(c, w, a, ops).given == 0
  }

  /** From a solvent start the state after any such run is solvent, so no repayment there can roll
      back, whoever repays whatever loan. */
  lemma {:induction false} RunSolvent(c: Config, w: World, a: Audit, ops: seq<Op>)
    requires Consistent(w) && Solvent(c, w, a) && Runnable(c, w, ops) && KeepsCollateral(c, w, a, ops)
    ensures Consistent(Run(c, w, ops)) && Solvent(c, Run(c, w, ops), AuditOf(c, w, a, ops))
    ensures InShop(c, Run(c, w, ops)) >= Run(c, w, ops).totalCollateral
    ensures forall who: AccountId, id :: !RepayRollsBack(c, Run(c, w, ops), who, id)
    decreases |ops|
  {
    if ops == [] {
      forall who: AccountId, id ensures !RepayRollsBack(c, w, who, id) {
        SolventNeverRollsBack(c, w, a, who, id);
      }
    } else {
      var op := ops[0];
      var n, next := Exec(c, w, op).1, NextAudit(c, w, op, a);
      if op.Repay? { SolventNeverRollsBack(c, w, a, op.who, op.id); }
      ExecConsistent(c, w, op);
      ExecCovered(c, w, a, op);
      GivenOnlyGrows(c, n, next, ops[1..]);
      RunSolvent(c, n, next, ops[1..]);
    }
  }

  /** After any such run a repayment succeeds exactly when the loan is live, the caller owns it
      and holds its debt, and it is not being liquidated: the shop never stands in the way. */
  lemma RunRepaysIff(c: Config, w: World, a: Audit, ops: seq<Op>, who: AccountId, id: LoanId)
    requires WellConfigured(c) && Consistent(w) && Solvent(c, w, a)
    requires Runnable(c, w, ops) && KeepsCollateral(c, w, a, ops)
    ensures var n := Run(c, w, ops);
            && Consistent(n)
            && (Repaying(c, n, who, id).0.Ok? <==>
                  id in n.loans && n.loans[id].who == who && id !in n.liquidating
                  && Free(n.book, c.loanAsset, who) >= n.loans[id].debt)
  {
    RunSolvent(c, w, a, ops);
    var n := Run(c, w, ops);
    if id in n.loans && n.loans[id].who == who && Free(n.book, c.loanAsset, who) >= n.loans[id].debt {
      LoanWithinTotals(n, id);
      RepaidBook(c, n.book, n.loans[id]);
    }
  }

  /** Which errors leave storage as it was: all of them, except a repay that rolls back.
      (mark_liquidated is the other call that can fail after writing.) */
  lemma ErrLeavesStorageIff(c: Config, w: World, op: Op)
    requires CanRun(c, w, op) && !op.MarkLiquidated? && Exec(c, w, op).0.Err?
    ensures Exec(c, w, op).1 == w <==> !(op.Repay? && RepayRollsBack(c, w, op.who, op.id))
  {
    if op.Repay? && RepayRollsBack(c, w, op.who, op.id) {
      assert w.loans[op.id].available >= 1;
    }
  }

  /** Every error of every other call leaves storage unchanged after any such run. */
  lemma RunErrorsAtomic(c: Config, w: World, a: Audit, ops: seq<Op>, op: Op)
    requires Consistent(w) && Solvent(c, w, a) && Runnable(c, w, ops) && KeepsCollateral(c, w, a, ops)
    requires CanRun(c, Run(c, w, ops), op) && !op.MarkLiquidated?
    requires Exec(c, Run(c, w, ops), op).0.Err?
    ensures Exec(c, Run(c, w, ops), op).1 == Run(c, w, ops)
  {
    RunSolvent(c, w, a, ops);
    ErrLeavesStorageIff(c, Run(c, w, ops), op);
  }

  /** An empty pallet on a conserved ledger is where runs start. */
  lemma GenesisAccounted(c: Config, w: World)
    requires Sound(w.book) && w.loans == map[] && w.byAccount == map[] && w.liquidating == []
    requires w.totalLoan == w.totalCollateral == w.marketDtoken == w.totalDtoken == 0 && w.userDtoken == map[]
    ensures Consistent(w) && Accounted(w, Audit(0, 0, 0, 0, 0)) && Solvent(c, w, Audit(0, 0, 0, 0, 0))
  {
    assert Debts(w.loans) == map[] && Originals(w.loans) == map[];
  }
}
