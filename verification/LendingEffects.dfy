/** When each deposit-loan call succeeds, whom it pays, and every table and counter it changes. */
module LendingEffects {
  import opened Base
  import opened Sums
  import opened Ledger
  import opened Payments
  import opened LoanMath
  import opened Lending
  import opened LendingInvariant
  import opened LendingBlock
  import opened LendingRuns
  import opened LendingAudit
  import opened LendingCorners

  // ---------- saving ----------

  /** A stake succeeds exactly for a covered positive amount of the collection asset. */
  lemma StakeIff(c: Config, w: World, who: AccountId, asset: AssetId, amount: nat)
    ensures var (r, n) := Staking(c, w, who, asset, amount);
            && (r == Err(WrongAsset) <==> asset != c.collectionAsset)
            && (r.Ok? <==> asset == c.collectionAsset && 0 < amount <= Free(w.book, asset, who))
            && (r.Err? ==> n == w)
  {
  }

  /** It pays the amount into the pool and mints the saver amount * market / total dtokens, or the
      amount itself when nothing is saved; both counters grow by it when they agreed. */
  lemma StakeEffect(c: Config, w: World, who: AccountId, asset: AssetId, amount: nat)
    requires Staking(c, w, who, asset, amount).0.Ok?
    ensures var n := Staking(c, w, who, asset, amount).1;
            var minted := if w.totalDtoken == 0 then amount else amount * w.marketDtoken / w.totalDtoken;
            && Settles(w.book, n.book, [Payment(c.collectionAsset, who, c.collectionAccount, amount)])
            && (forall x: AccountId :: At(n.userDtoken, x) == At(w.userDtoken, x) + Got(x, who, minted))
            && n.marketDtoken == w.marketDtoken + minted && n.totalDtoken == w.marketDtoken + amount
            && (w.marketDtoken == w.totalDtoken ==> minted == amount && n.marketDtoken == n.totalDtoken)
            && n == w.(book := n.book, userDtoken := n.userDtoken, marketDtoken := n.marketDtoken,
                       totalDtoken := n.totalDtoken)
  {
    SettlesOne(w.book, Payment(c.collectionAsset, who, c.collectionAccount, amount));
    if w.totalDtoken > 0 { SameRatio(amount, w.totalDtoken); }
  }

  /** While the counters agree, a redeem past the faults succeeds exactly when the pool holds the
      amount and the saver has it. */
  lemma RedeemIff(c: Config, w: World, who: AccountId, asset: AssetId, amount: nat)
    requires w.marketDtoken == w.totalDtoken && !RedeemFaults(c, w, who, asset, amount)
    ensures var (r, n) := Redeeming(c, w, who, asset, amount);
            && (r == Err(NotEnoughToRedeem) <==> Cash(c, w.book) < amount)
            && (r == Err(RedeemTooMuch) <==> Cash(c, w.book) >= amount && asset == c.collectionAsset
                                             && At(w.userDtoken, who) < amount)
            && (r.Ok? <==> Cash(c, w.book) >= amount && asset == c.collectionAsset && At(w.userDtoken, who) >= amount)
            && (r.Err? ==> n == w)
  {
    if Cash(c, w.book) >= amount && asset == c.collectionAsset { WorthTheirNumber(w, who); }
  }

  /** What a redeem of u - x by a saver worth u pays: u out and x back in, or, when u is not there,
      x in for nothing, or nothing. */
  ghost predicate RedeemSettles(c: Config, w: World, n: World, who: AccountId, u: nat, x: nat) {
    var out := Payment(c.collectionAsset, c.collectionAccount, who, u);
    var back := Payment(c.collectionAsset, who, c.collectionAccount, x);
    if Cash(c, w.book) >= u && w.marketDtoken >= u then Settles(w.book, n.book, [out, back])
    else if 0 < x <= Free(w.book, c.collectionAsset, who) then Settles(w.book, n.book, [back])
    else n == w
  }

  lemma RedeemPays(c: Config, w: World, who: AccountId, asset: AssetId, amount: nat)
    requires w.marketDtoken == w.totalDtoken && !RedeemFaults(c, w, who, asset, amount)
    requires Redeeming(c, w, who, asset, amount).0.Ok?
    ensures var n, u := Redeeming(c, w, who, asset, amount).1, At(w.userDtoken, who);
            u >= amount && RedeemSettles(c, w, n, who, u, u - amount)
  {
    RedeemInTwo(c, w, who, asset, amount);
    TwoHalvesPay(c, w, who, At(w.userDtoken, who) - amount);
  }

  lemma RedeemInTwo(c: Config, w: World, who: AccountId, asset: AssetId, amount: nat)
    requires w.marketDtoken == w.totalDtoken && !RedeemFaults(c, w, who, asset, amount)
    requires Redeeming(c, w, who, asset, amount).0.Ok?
    ensures Redeemable(w) && At(w.userDtoken, who) >= amount
    ensures Redeeming(c, w, who, asset, amount).1
         == CreateStaking(c, RedeemAll(c, w, who).1, who, At(w.userDtoken, who) - amount).1
  {
    WorthTheirNumber(w, who);
  }

  lemma TwoHalvesPay(c: Config, w: World, who: AccountId, x: nat)
    requires w.marketDtoken == w.totalDtoken && Redeemable(w) && x <= At(w.userDtoken, who)
    ensures RedeemSettles(c, w, CreateStaking(c, RedeemAll(c, w, who).1, who, x).1, who, At(w.userDtoken, who), x)
  {
    var u, m := At(w.userDtoken, who), RedeemAll(c, w, who).1;
    AllPaidOut(c, w, who);
    if Cash(c, w.book) >= u && w.marketDtoken >= u {
      PaidOutAndBack(c, w, m, who, u, x);
    } else if 0 < x <= Free(w.book, c.collectionAsset, who) {
      SettlesOne(w.book, Payment(c.collectionAsset, who, c.collectionAccount, x));
    }
  }

  /** It touches no cell but the balances, the two counters and the saver's own entry. */
  lemma RedeemSparesRest(c: Config, w: World, who: AccountId, asset: AssetId, amount: nat)
    requires !RedeemFaults(c, w, who, asset, amount)
    ensures var n := Redeeming(c, w, who, asset, amount).1;
            && n == w.(book := n.book, userDtoken := n.userDtoken, marketDtoken := n.marketDtoken,
                       totalDtoken := n.totalDtoken)
            && (forall x: AccountId :: x != who ==> At(n.userDtoken, x) == At(w.userDtoken, x))
  {
  }

  lemma AllPaidOut(c: Config, w: World, who: AccountId)
    requires w.marketDtoken == w.totalDtoken && Redeemable(w)
    ensures var u, m := At(w.userDtoken, who), RedeemAll(c, w, who).1;
            && (if Cash(c, w.book) >= u && w.marketDtoken >= u then
                  && m.book == Moved(w.book, c.collectionAsset, c.collectionAccount, who, u)
                  && Settles(w.book, m.book, [Payment(c.collectionAsset, c.collectionAccount, who, u)])
                else m == w)
  {
    WorthTheirNumber(w, who);
    if Cash(c, w.book) >= At(w.userDtoken, who) {
      SettlesOne(w.book, Payment(c.collectionAsset, c.collectionAccount, who, At(w.userDtoken, who)));
    }
  }

  /** Staking x after a payment out; staking nothing is refused, which pays as much. */
  lemma PaidOutAndBack(c: Config, w: World, m: World, who: AccountId, u: nat, x: nat)
    requires x <= u <= Cash(c, w.book) && m.book == Moved(w.book, c.collectionAsset, c.collectionAccount, who, u)
    requires Settles(w.book, m.book, [Payment(c.collectionAsset, c.collectionAccount, who, u)])
    ensures Settles(w.book, CreateStaking(c, m, who, x).1.book,
                    [Payment(c.collectionAsset, c.collectionAccount, who, u),
                     Payment(c.collectionAsset, who, c.collectionAccount, x)])
  {
    var out := Payment(c.collectionAsset, c.collectionAccount, who, u);
    var back := Payment(c.collectionAsset, who, c.collectionAccount, x);
    MoveDelta(w.book, c.collectionAsset, c.collectionAccount, who, u, c.collectionAsset, who);
    if x == 0 { ZeroMoves(w.book, m.book, [out], back); } else { SettlesNext(w.book, m.book, [out], back); }
    assert [out] + [back] == [out, back];
  }

  lemma ZeroMoves(b: Book, m: Book, ps: seq<Payment>, p: Payment)
    requires Settles(b, m, ps) && p.amount == 0
    ensures Settles(b, m, ps + [p])
  {
    forall a: AssetId, y: AccountId ensures Free(m, a, y) == Free(b, a, y) + Net(ps + [p], a, y) {
      NetAppend(ps, p, a, y);
    }
  }

  // ---------- borrowing ----------

  /** The LTV check on an application that names both sides. */
  predicate WithinLimit(c: Config, collateral: nat, loan: nat, price: nat) {
    loan * PREC < collateral * price * c.ltvLimit
  }

  /** Every verdict on an application, in the order of the checks. */
  lemma ApplyIff(c: Config, w: World, who: AccountId, collateral: nat, loan: nat, price: nat)
    requires WellConfigured(c) && price > 0
    ensures var (r, n) := Applying(c, w, who, collateral, loan, price);
            var funded := Cash(c, w.book) >= loan;
            var open := funded && (c.loanCap.None? || w.totalLoan < c.loanCap.value);
            var quoted := open && (if loan == 0 then collateral > 0
                                   else collateral == 0 || WithinLimit(c, collateral, loan, price));
            && (r == Err(NotEnoughToLoan) <==> !funded)
            && (r == Err(ReachLoanCap) <==> funded && !open)
            && (r == Err(InvalidCollateralLoanAmounts) <==> open && loan == 0 && collateral == 0)
            && (r == Err(OverLTVLimit) <==> open && !quoted && loan > 0)
            && (r == Err(BelowMinimumCollateral) <==> quoted && collateral < c.minimumCollateral)
            && (r == Err(InsufficientBalance) <==> quoted && collateral >= c.minimumCollateral
                                                   && Free(w.book, c.collateralAsset, who) < collateral)
            && (r.Ok? <==> quoted && c.minimumCollateral <= collateral <= Free(w.book, c.collateralAsset, who))
            && (r.Err? ==> n == w)
  {
    if collateral > 0 && loan > 0 { CheckAdmitsIff(collateral, loan, price, c.ltvLimit); }
  }

  /** The pledged collateral, no more and no less, goes to the shop, the amount asked for to the
      borrower; one loan with a new id is added, to the table and at the end of its owner's list. */
  lemma ApplyEffect(c: Config, w: World, who: AccountId, collateral: nat, loan: nat, price: nat)
    requires WellConfigured(c) && price > 0 && Applying(c, w, who, collateral, loan, price).0.Ok?
    ensures loan / price <= collateral
    ensures var n, id := Applying(c, w, who, collateral, loan, price).1, w.nextLoanId;
            var debt := if loan > 0 then loan else collateral * price * c.ltvLimit / PREC;
            && Settles(w.book, n.book, [Payment(c.collateralAsset, who, c.pawnShop, collateral),
                                        Payment(c.collectionAsset, c.collectionAccount, who, loan)])
            && n.loans == w.loans[id := Loan(id, who, collateral, collateral - loan / price, debt, Well)]
            && (forall x: AccountId ::
                  IdsOf(n.byAccount, x) == IdsOf(w.byAccount, x) + if x == who then [id] else [])
            && n.nextLoanId == id + 1
            && n.totalLoan == w.totalLoan + debt && n.totalCollateral == w.totalCollateral + collateral
            && n == w.(book := n.book, loans := n.loans, byAccount := n.byAccount, nextLoanId := n.nextLoanId,
                       totalLoan := n.totalLoan, totalCollateral := n.totalCollateral)
  {
    OpenedLoan(c, w, who, collateral, loan, price);
    var pledge := Payment(c.collateralAsset, who, c.pawnShop, collateral);
    MoveDelta(w.book, c.collateralAsset, who, c.pawnShop, collateral, c.collectionAsset, c.collectionAccount);
    SettlesTwo(w.book, pledge, Payment(c.collectionAsset, c.collectionAccount, who, loan));
  }

  // ---------- repaying ----------

  /** Every verdict on a repayment, from any consistent state. */
  lemma RepayIff(c: Config, w: World, who: AccountId, id: LoanId)
    requires WellConfigured(c) && Consistent(w)
    ensures var r := Repaying(c, w, who, id).0;
            && (r == Err(InvalidLoanId) <==> id !in w.loans)
            && (id in w.loans ==>
                  var l, shop := w.loans[id], Free(w.book, c.collateralAsset, c.pawnShop);
                  var paying := l.who == who && Free(w.book, c.loanAsset, who) >= l.debt;
                  && (r == Err(NotLoanOwner) <==> l.who != who)
                  && (r == Err(NotEnoughToRepay) <==> l.who == who && !paying)
                  && (r == Err(ShopCollateralShort) <==> paying && shop < l.available)
                  && (r == Err(LoanInLiquidation) <==> paying && shop >= l.available && id in w.liquidating)
                  && (r == Err(InsufficientBalance) <==>
                        paying && l.available <= shop < l.original && id !in w.liquidating)
                  && (r.Ok? <==> paying && shop >= l.original && id !in w.liquidating))
  {
    if id in w.loans && Free(w.book, c.loanAsset, w.loans[id].who) >= w.loans[id].debt {
      RepaidBook(c, w.book, w.loans[id]);
    }
  }

  /** A repayment that succeeds pays the whole debt in and the whole original collateral back to the
      borrower, and takes the loan out of the table, its owner's list and both totals. */
  lemma RepayEffect(c: Config, w: World, who: AccountId, id: LoanId)
    requires WellConfigured(c) && Consistent(w) && Repaying(c, w, who, id).0.Ok?
    ensures id in w.loans
    ensures var n, l := Repaying(c, w, who, id).1, w.loans[id];
            && Settles(w.book, n.book, [Payment(c.loanAsset, who, c.collectionAccount, l.debt),
                                        Payment(c.collateralAsset, c.pawnShop, who, l.original)])
            && n.loans == w.loans - {id}
            && (forall x: AccountId ::
                  IdsOf(n.byAccount, x) ==
                  if x == who then Without(IdsOf(w.byAccount, x), id) else IdsOf(w.byAccount, x))
            && n.totalLoan == w.totalLoan - l.debt && n.totalCollateral == w.totalCollateral - l.original
            && n == w.(book := n.book, loans := n.loans, byAccount := n.byAccount,
                       totalLoan := n.totalLoan, totalCollateral := n.totalCollateral)
  {
    var l := w.loans[id];
    RepaidBook(c, w.book, l);
    SettlesTwo(w.book, Payment(c.loanAsset, who, c.collectionAccount, l.debt),
               Payment(c.collateralAsset, c.pawnShop, who, l.original));
  }

  /** One that rolls back settles to nothing, but moves the id to the end of its owner's list and
      raises both totals; any other refusal changes nothing. */
  lemma RefusedRepayEffect(c: Config, w: World, who: AccountId, id: LoanId)
    requires WellConfigured(c) && Consistent(w) && Repaying(c, w, who, id).0.Err?
    ensures var n := Repaying(c, w, who, id).1;
            if RepayRollsBack(c, w, who, id) then
              && Settles(w.book, n.book, [])
              && n == w.(book := n.book,
                         byAccount := w.byAccount[who := Without(IdsOf(w.byAccount, who), id) + [id]],
                         totalLoan := w.totalLoan + w.loans[id].debt,
                         totalCollateral := w.totalCollateral + w.loans[id].available)
            else n == w
  {
    if RepayRollsBack(c, w, who, id) { RollbackEffect(c, w, w.loans[id]); }
  }

  lemma RollbackEffect(c: Config, w: World, l: Loan)
    requires WellConfigured(c) && Consistent(w) && l.id in w.loans && w.loans[l.id] == l
    requires RepayRollsBack(c, w, l.who, l.id)
    ensures var n := Repaying(c, w, l.who, l.id).1;
            && Settles(w.book, n.book, [])
            && n == w.(book := n.book,
                       byAccount := w.byAccount[l.who := Without(IdsOf(w.byAccount, l.who), l.id) + [l.id]],
                       totalLoan := w.totalLoan + l.debt, totalCollateral := w.totalCollateral + l.available)
  {
    RepaidBook(c, w.book, l);
    LoanWithinTotals(w, l.id);
    ThereAndBack(w.book, c.loanAsset, l.who, c.collectionAccount, l.debt);
    Reopened(c, w, l);
  }

  lemma Reopened(c: Config, w: World, l: Loan)
    requires Free(w.book, c.loanAsset, l.who) >= l.debt && l.debt <= w.totalLoan && l.original <= w.totalCollateral
    requires var paid := PaidIn(c, w, l).book;
             && Free(paid, c.loanAsset, c.collectionAccount) >= l.debt
             && Free(paid, c.collateralAsset, c.pawnShop) < l.original
    ensures var paid := Moved(w.book, c.loanAsset, l.who, c.collectionAccount, l.debt);
            Closing(c, PaidIn(c, w, l), l).1 ==
            w.(book := Moved(paid, c.loanAsset, c.collectionAccount, l.who, l.debt),
               byAccount := w.byAccount[l.who := Without(IdsOf(w.byAccount, l.who), l.id) + [l.id]],
               totalLoan := w.totalLoan + l.debt, totalCollateral := w.totalCollateral + l.available)
  {
    var ids := Without(IdsOf(w.byAccount, l.who), l.id);
    assert w.byAccount[l.who := ids][l.who := ids + [l.id]] == w.byAccount[l.who := ids + [l.id]];
  }

  // ---------- drawing and adding collateral ----------

  /** A draw succeeds exactly for the owner and within the credit, pays nobody, raises the loan's
      debt and TotalLoan by the amount and uses up amount / price of its available collateral. */
  lemma DrawEffect(c: Config, w: World, who: AccountId, id: LoanId, amount: nat, price: nat)
    requires WellConfigured(c) && LoansSound(w.loans, w.nextLoanId) && !DrawFaults(c, w, who, id, amount, price)
    ensures var (r, n) := Drawing(c, w, who, id, amount, price);
            && (r == Err(InvalidLoanId) <==> id !in w.loans) && (r.Err? ==> n == w)
            && (id in w.loans ==>
                  var l, p := w.loans[id], price % U32_BOUND;
                  && (r == Err(NotLoanOwner) <==> l.who != who)
                  && (r.Ok? <==> l.who == who && amount * PREC <= l.available * p * c.ltvLimit)
                  && (r.Ok? ==>
                        && p > 0 && amount / p < l.available
                        && n == w.(loans := w.loans[id := n.loans[id]], totalLoan := w.totalLoan + amount)
                        && n.loans[id] == l.(debt := l.debt + amount, available := l.available - amount / p)))
  {
    if id in w.loans && w.loans[id].who == who {
      var l, p := w.loans[id], price % U32_BOUND;
      CreditIff(l.available, amount, p, c.ltvLimit);
      if Drawing(c, w, who, id, amount, price).0.Ok? { DrawLeavesCollateral(l.available, amount, p, c.ltvLimit); }
    }
  }

  lemma CreditIff(available: nat, amount: nat, p: nat, limit: nat)
    ensures amount <= Credit(available, p, limit) <==> amount * PREC <= available * p * limit
  {
    NestedFloor(available * p * limit, LTV_PREC, PRICE_PREC);
    FloorAtLeast(available * p * limit, PREC, amount);
  }

  /** add_collateral credits the loan and the total with collateral, and what it moves to the shop is
      that amount of the collection asset. */
  lemma AddEffect(c: Config, w: World, who: AccountId, id: LoanId, amount: nat)
    requires LoansSound(w.loans, w.nextLoanId)
    ensures var (r, n) := AddingCollateral(c, w, who, id, amount);
            && (r == Err(InvalidLoanId) <==> id !in w.loans) && (r.Err? ==> n == w)
            && (id in w.loans ==>
                  var l := w.loans[id];
                  && (r == Err(NotLoanOwner) <==> l.who != who)
                  && (r.Ok? <==> l.who == who && Free(w.book, c.collectionAsset, who) >= amount)
                  && (r.Ok? ==>
                        && Settles(w.book, n.book, [Payment(c.collectionAsset, who, c.pawnShop, amount)])
                        && n == w.(book := n.book, loans := w.loans[id := n.loans[id]],
                                   totalCollateral := w.totalCollateral + amount)
                        && n.loans[id] == l.(original := l.original + amount, available := l.available + amount)))
  {
    if AddingCollateral(c, w, who, id, amount).0.Ok? {
      SettlesOne(w.book, Payment(c.collectionAsset, who, c.pawnShop, amount));
    }
  }

  // ---------- liquidation ----------

  /** What a liquidation that is paid out pays: the debt from the auction's account, and from the
      collection account a penalty in percent of the surplus, and the rest of it to the borrower. */
  function Proceeds(c: Config, l: Loan, caller: AccountId, surplus: nat, penalty: nat): seq<Payment>
    requires penalty <= surplus
  {
    [Payment(c.loanAsset, caller, c.collectionAccount, l.debt)]
    + if surplus == 0 then [] else
        [Payment(c.loanAsset, c.collectionAccount, c.profitPool, penalty),
         Payment(c.loanAsset, c.collectionAccount, l.who, surplus - penalty)]
  }

  lemma PayoutSettles(c: Config, b: Book, l: Loan, caller: AccountId, auction: nat)
    requires WellConfigured(c) && Free(b, c.loanAsset, caller) >= auction >= l.debt
    requires !PayoutFaults(c, b, l, caller, auction - l.debt) && Payout(c, b, l, caller, auction).0.Ok?
    ensures var surplus := auction - l.debt;
            var penalty := surplus * c.liquidationPenalty / 100;
            && penalty <= surplus
            && Settles(b, Payout(c, b, l, caller, auction).1, Proceeds(c, l, caller, surplus, penalty))
  {
    var surplus, a := auction - l.debt, c.loanAsset;
    var debt := Payment(a, caller, c.collectionAccount, l.debt);
    SettlesOne(b, debt);
    if surplus == 0 {
      NoSurplusPaid(c, l, caller);
    } else {
      DebtIn(c, b, caller, l.debt, caller);
      SurplusSettles(c, b, Moved(b, a, caller, c.collectionAccount, l.debt), l, caller, surplus, Penalty(c, surplus));
    }
  }

  lemma NoSurplusPaid(c: Config, l: Loan, caller: AccountId)
    ensures 0 * c.liquidationPenalty / 100 == 0
    ensures Proceeds(c, l, caller, 0, 0) == [Payment(c.loanAsset, caller, c.collectionAccount, l.debt)]
  {
    assert 0 * c.liquidationPenalty == 0;
  }

  lemma SurplusSettles(c: Config, b: Book, paid: Book, l: Loan, caller: AccountId, surplus: nat, penalty: nat)
    requires surplus > 0 && surplus >= penalty
    requires Settles(b, paid, [Payment(c.loanAsset, caller, c.collectionAccount, l.debt)])
    requires Free(paid, c.loanAsset, c.collectionAccount) >= penalty
    requires var b1 := Moved(paid, c.loanAsset, c.collectionAccount, c.profitPool, penalty);
             PayRemainder(c, b1, l, caller, surplus - penalty, penalty).0.Ok?
    ensures var b1 := Moved(paid, c.loanAsset, c.collectionAccount, c.profitPool, penalty);
            Settles(b, PayRemainder(c, b1, l, caller, surplus - penalty, penalty).1,
                    Proceeds(c, l, caller, surplus, penalty))
  {
    var a := c.loanAsset;
    var debt := Payment(a, caller, c.collectionAccount, l.debt);
    var fee := Payment(a, c.collectionAccount, c.profitPool, penalty);
    var share := Payment(a, c.collectionAccount, l.who, surplus - penalty);
    SettlesNext(b, paid, [debt], fee);
    SettlesNext(b, Moved(paid, a, c.collectionAccount, c.profitPool, penalty), [debt] + [fee], share);
    assert [debt] + [fee] + [share] == Proceeds(c, l, caller, surplus, penalty);
  }

  /** A liquidation that succeeds pays the proceeds, */
  lemma LiquidationPays(c: Config, w: World, caller: AccountId, id: LoanId, l: Loan, auction: nat)
    requires WellConfigured(c) && id in w.loans && l == w.loans[id]
    requires MarkingLiquidated(c, w, caller, id, auction).0.Ok? && !LiquidateFaults(c, w, caller, id, auction)
    ensures LiquidatePasses(c, w, caller, id, auction)
    ensures var surplus := auction - l.debt;
            var penalty := surplus * c.liquidationPenalty / 100;
            && penalty <= surplus
            && Settles(w.book, MarkingLiquidated(c, w, caller, id, auction).1.book,
                       Proceeds(c, l, caller, surplus, penalty))
  {
    PayoutSettles(c, w.book, l, caller, auction);
  }

  /** and takes the loan out of all three tables, while both totals keep counting it. */
  lemma LiquidationClears(c: Config, w: World, caller: AccountId, id: LoanId, auction: nat)
    requires MarkingLiquidated(c, w, caller, id, auction).0.Ok?
    ensures LiquidatePasses(c, w, caller, id, auction)
    ensures var n, owner := MarkingLiquidated(c, w, caller, id, auction).1, w.loans[id].who;
            && n.loans == w.loans - {id} && n.liquidating == Without(w.liquidating, id)
            && (forall x: AccountId :: IdsOf(n.byAccount, x) ==
                  if x == owner then Without(IdsOf(w.byAccount, x), id) else IdsOf(w.byAccount, x))
            && n == w.(book := n.book, loans := n.loans, byAccount := n.byAccount, liquidating := n.liquidating)
  {
  }

  /** Which check refuses a liquidation before any payout; such a refusal changes nothing. */
  lemma LiquidationChecks(c: Config, w: World, caller: AccountId, id: LoanId, auction: nat)
    ensures var (r, n) := MarkingLiquidated(c, w, caller, id, auction);
            && (r == Err(LiquidationAccountOnly) <==> caller != c.liquidationAccount)
            && (r == Err(InvalidLoanId) <==> caller == c.liquidationAccount && id !in w.loans)
            && (r == Err(NotInLiquidation) <==>
                  caller == c.liquidationAccount && id in w.loans && id !in w.liquidating)
            && (r == Err(NotEnoughToLiquidate) <==>
                  && caller == c.liquidationAccount && id in w.loans && id in w.liquidating
                  && !(Free(w.book, c.loanAsset, caller) >= auction >= w.loans[id].debt))
            && (!LiquidatePasses(c, w, caller, id, auction) ==> r.Err? && n == w)
  {
  }

  // ---------- blocks ----------

  /** The status every loan has after a scan: once liquidating it keeps it; otherwise the LTV decides,
      and a loan that is well again keeps the status it had. */
  lemma StatusAfterScan(c: Config, w: World, price: nat, order: seq<LoanId>, id: LoanId)
    requires Consistent(w) && price > 0 && Enumerates(order, w.loans.Keys) && id in w.loans
    requires forall j :: j in w.loans ==> w.loans[j].available * price != 0
    ensures var n, l := Scanned(c, w, price, order), w.loans[id];
            var v := l.debt * PREC / (l.available * price);
            && id in n.loans
            && n.loans[id] == l.(status :=
                 if id in w.liquidating then l.status
                 else if v >= c.liquidationThreshold then Liquidating(v)
                 else if v >= c.warningThreshold then Warning(v)
                 else l.status)
            && w.liquidating <= n.liquidating
  {
  }

  /** The rate a block stores is the linear one of cash and debt before the block, the time its own;
      an unused pool keeps its rates. */
  lemma BlockSetsRate(c: Config, w: World, price: nat, order: seq<LoanId>, now: nat)
    requires WellConfigured(c) && Consistent(w) && price > 0 && Enumerates(order, w.loans.Keys)
    requires !BlockFaults(c, w, price, order)
    ensures var n, f, d := Block(c, w, price, order, now), Cash(c, w.book), w.totalLoan;
            && n.bonusTime == now
            && (if f + 2 * d == 0 then n.loanRate == w.loanRate && n.savingRate == w.savingRate
                else n.loanRate == (PREC * d + 5000_0000 * (f + 2 * d)) / (10 * (f + 2 * d)) && n.savingRate == 0)
  {
    BlockEffect(c, w, price, order, now);
    if Cash(c, w.book) + 2 * w.totalLoan > 0 { RateIsLinear(Cash(c, w.book), w.totalLoan); }
  }

  /** One turn of the interest loop, for any interest: the loan's share interest * debt / (total * 10^8)
      is drawn if the credit allows it, paid by the borrower if the balance does, and counted anyway. */
  lemma ChargeOneEffect(c: Config, w: World, id: LoanId, interest: nat, total: nat, price: nat)
    requires WellConfigured(c) && LoansSound(w.loans, w.nextLoanId) && id in w.loans && total > 0
    requires !ChargeOneFaults(c, w, id, interest, total, price)
    ensures var n, l := ChargeOne(c, w, id, interest, total, price), w.loans[id];
            var amount, p := interest * l.debt / (total * PREC), price % U32_BOUND;
            && n.totalDtoken == w.totalDtoken + amount
            && (if amount * PREC <= l.available * p * c.ltvLimit then
                  && p > 0 && id in n.loans && n.totalLoan == w.totalLoan + amount
                  && n.loans == w.loans[id := n.loans[id]]
                  && n.loans[id] == l.(debt := l.debt + amount, available := l.available - amount / p)
                else n.loans == w.loans && n.totalLoan == w.totalLoan)
            && (if Free(w.book, c.collectionAsset, l.who) >= amount then
                  Settles(w.book, n.book, [Payment(c.collectionAsset, l.who, c.collectionAccount, amount)])
                else n.book == w.book)
            && n == w.(book := n.book, loans := n.loans, totalLoan := n.totalLoan, totalDtoken := n.totalDtoken)
  {
    var l := w.loans[id];
    var amount := Share(interest, l.debt, total);
    DrawEffect(c, w, l.who, id, amount, price);
    if Free(w.book, c.collectionAsset, l.who) >= amount {
      SettlesOne(w.book, Payment(c.collectionAsset, l.who, c.collectionAccount, amount));
    }
  }

  // ---------- faults ----------

  const SMALL: nat := 0x1_0000_0000_0000

  /** Totals and entries below 2^48, ids below 2^63. Balances may be of any size. */
  ghost predicate SmallState(w: World) {
    && w.totalLoan < SMALL && w.totalCollateral < SMALL && w.marketDtoken < SMALL && w.totalDtoken < SMALL
    && (forall who: AccountId :: At(w.userDtoken, who) < SMALL) && w.nextLoanId + 1 < U64_BOUND
  }

  /** Amounts below 2^48 and prices below 2^32; something is saved where something is redeemed; no
      penalty above the surplus. */
  predicate SmallCall(c: Config, w: World, op: Op) {
    match op
    case Stake(_, _, amount) => amount < SMALL
    case Redeem(_, _, _) => w.marketDtoken == w.totalDtoken > 0
    case Apply(_, collateral, loan, price) => collateral < SMALL && loan < SMALL && price < U32_BOUND
    case Repay(_, _) => true
    case Draw(_, _, amount, price) => amount < SMALL && 0 < price < U32_BOUND
    case AddCollateral(_, _, amount) => amount < SMALL
    case MarkLiquidated(_, _, auction) => auction < SMALL && c.liquidationPenalty <= 100
    case NewBlock(_, _, _) => false
    case Outside(_, _) => true
  }

  /** Calls of ordinary size never fault, whoever makes them: the fault predicates exclude no more
      than divisions by zero and numbers too large. (For blocks see BlockFaultsIff.) */
  lemma SmallCallsNeverFault(c: Config, w: World, op: Op)
    requires WellConfigured(c) && Consistent(w) && WellFormed(w, op) && SmallState(w) && SmallCall(c, w, op)
    ensures CanRun(c, w, op)
  {
    match op
    case Stake(who, asset, amount) => SmallStake(c, w, who, amount);
    case Redeem(who, asset, amount) => SmallRedeem(c, w, who, asset, amount);
    case Apply(who, collateral, loan, price) => SmallApply(c, w, who, collateral, loan, price);
    case Repay(who, id) => SmallRepay(c, w, who, id);
    case Draw(who, id, amount, price) => SmallDraw(c, w, who, id, amount, price);
    case AddCollateral(who, id, amount) =>
    case MarkLiquidated(caller, id, auction) => SmallLiquidation(c, w, caller, id, auction);
    case Outside(_, _) =>
  }

  lemma SmallRepay(c: Config, w: World, who: AccountId, id: LoanId)
    requires Consistent(w) && SmallState(w)
    ensures !RepayFaults(c, w, who, id)
  {
    if id in w.loans { LoanWithinTotals(w, id); }
  }

  lemma SmallDraw(c: Config, w: World, who: AccountId, id: LoanId, amount: nat, price: nat)
    requires WellConfigured(c) && Consistent(w) && SmallState(w) && amount < SMALL && 0 < price < U32_BOUND
    ensures !DrawFaults(c, w, who, id, amount, price)
  {
    if id in w.loans {
      LoanWithinTotals(w, id);
      SmallProduct(w.loans[id].available, price, c.ltvLimit);
    }
  }

  lemma SmallLiquidation(c: Config, w: World, caller: AccountId, id: LoanId, auction: nat)
    requires auction < SMALL && c.liquidationPenalty <= 100
    ensures !LiquidateFaults(c, w, caller, id, auction)
  {
    if LiquidatePasses(c, w, caller, id, auction) {
      SmallPayout(c, w.book, w.loans[id], caller, auction - w.loans[id].debt);
    }
  }

  lemma SmallPayout(c: Config, b: Book, l: Loan, caller: AccountId, surplus: nat)
    requires surplus < SMALL && c.liquidationPenalty <= 100
    ensures !PayoutFaults(c, b, l, caller, surplus)
  {
    SmallPenalty(c, surplus);
  }

  lemma SmallFactors(x: nat, y: nat, m: nat, n: nat)
    requires x < m && y < n
    ensures x * y <= m * n
  {
    MulMonotone(x, y, n);
    MulMonotone(n, x, m);
    Swap(x, n);
    Swap(m, n);
  }

  lemma SmallProduct(amount: nat, price: nat, limit: nat)
    requires amount < SMALL && price < U32_BOUND && limit < PREC
    ensures amount * price < U128_BOUND && amount * price * limit < U128_BOUND
  {
    SmallFactors(amount, price, SMALL, U32_BOUND);
    SmallFactors(amount * price, limit, SMALL * U32_BOUND + 1, PREC);
  }

  lemma SmallStake(c: Config, w: World, who: AccountId, amount: nat)
    requires SmallState(w) && amount < SMALL
    ensures !StakeFaults(c, w, who, amount)
  {
    SmallFactors(amount, w.marketDtoken, SMALL, SMALL);
    if w.totalDtoken > 0 { FloorAntitone(amount * w.marketDtoken, 1, w.totalDtoken); }
  }

  lemma SmallRedeem(c: Config, w: World, who: AccountId, asset: AssetId, amount: nat)
    requires SmallState(w) && w.marketDtoken == w.totalDtoken > 0
    ensures !RedeemFaults(c, w, who, asset, amount)
  {
    SameRatio(0, w.totalDtoken);
    WorthTheirNumber(w, who);
    AllPaidOut(c, w, who);
    var m := RedeemAll(c, w, who).1;
    assert m.marketDtoken <= w.marketDtoken && m.totalDtoken <= w.totalDtoken && m.userDtoken == w.userDtoken;
    if At(w.userDtoken, who) >= amount { SmallStake(c, m, who, At(w.userDtoken, who) - amount); }
  }

  lemma SmallApply(c: Config, w: World, who: AccountId, collateral: nat, loan: nat, price: nat)
    requires WellConfigured(c) && Consistent(w) && SmallState(w)
    requires collateral < SMALL && loan < SMALL && 0 < price < U32_BOUND
    ensures !ApplyFaults(c, w, who, collateral, loan, price)
  {
    SmallProduct(collateral, price, c.ltvLimit);
    FloorAntitone(collateral * price * c.ltvLimit, 1, PREC);
    FloorAtLeast(collateral * price * c.ltvLimit, PREC, U128_BOUND / 2);
    if collateral > 0 && loan > 0 { CheckAdmitsIff(collateral, loan, price, c.ltvLimit); }
  }

  lemma SmallPenalty(c: Config, surplus: nat)
    requires surplus < SMALL && c.liquidationPenalty <= 100
    ensures surplus * c.liquidationPenalty < U128_BOUND && Penalty(c, surplus) <= surplus
  {
    MulMonotone(surplus, c.liquidationPenalty, 100);
    FloorMonotone(surplus * c.liquidationPenalty, surplus * 100, 100);
  }
}
