/** Where the deposit-loan code departs from what its interface suggests, each with the
    condition under which it does and for all states that meet it. */
module LendingCorners {
  import opened Base
  import opened Sums
  import opened Ledger
  import opened Payments
  import opened LoanMath
  import opened Lending
  import opened LendingInvariant
  import opened LendingBlock
  import opened LendingRuns
  import opened LendingAudit

  /** What a redeem of r does to a saver holding u dtokens, when the two counters agree.
      If the collection account can pay all of u, it is a plain subtraction of r from cash and
      counters. If it can pay r but not u, the discarded error turns the call into a new stake
      of u - r, or into nothing. The saver's own entry never goes down. */
  lemma RedeemNet(c: Config, w: World, who: AccountId, r: nat)
    requires WellConfigured(c) && who != c.collectionAccount
    requires w.marketDtoken == w.totalDtoken && w.totalDtoken > 0
    requires Cash(c, w.book) >= r && At(w.userDtoken, who) >= r
    requires !RedeemFaults(c, w, who, c.collectionAsset, r)
    ensures var (res, n) := Redeeming(c, w, who, c.collectionAsset, r);
            var u, mine := At(w.userDtoken, who), Free(w.book, c.collectionAsset, who);
            && res.Ok?
            && (if Cash(c, w.book) >= u && w.marketDtoken >= u then
                  && Free(n.book, c.collectionAsset, who) == mine + r
                  && Cash(c, n.book) == Cash(c, w.book) - r
                  && n.marketDtoken == n.totalDtoken == w.marketDtoken - r
                  && At(n.userDtoken, who) == u + (u - r)
                else if 0 < u - r <= mine then
                  && Free(n.book, c.collectionAsset, who) == mine - (u - r)
                  && Cash(c, n.book) == Cash(c, w.book) + (u - r)
                  && n.marketDtoken == n.totalDtoken == w.marketDtoken + (u - r)
                  && At(n.userDtoken, who) == u + (u - r)
                else n == w)
  {
    var u := At(w.userDtoken, who);
    WorthTheirNumber(w, who);
    AllRedeemed(c, w, who);
    var m := RedeemAll(c, w, who).1;
    if 0 < u - r <= Free(m.book, c.collectionAsset, who) { Restaked(c, m, who, u - r); }
  }

  lemma AllRedeemed(c: Config, w: World, who: AccountId)
    requires who != c.collectionAccount && w.marketDtoken == w.totalDtoken && w.totalDtoken > 0
    ensures Redeemable(w)
    ensures var m, u := RedeemAll(c, w, who).1, At(w.userDtoken, who);
            if Cash(c, w.book) >= u && w.marketDtoken >= u then
              && Free(m.book, c.collectionAsset, who) == Free(w.book, c.collectionAsset, who) + u
              && Cash(c, m.book) == Cash(c, w.book) - u
              && m.marketDtoken == m.totalDtoken == w.marketDtoken - u && m.userDtoken == w.userDtoken
            else m == w
  {
    SameRatio(0, w.totalDtoken);
    WorthTheirNumber(w, who);
  }

  lemma Restaked(c: Config, m: World, who: AccountId, x: nat)
    requires who != c.collectionAccount && m.marketDtoken == m.totalDtoken
    requires 0 < x <= Free(m.book, c.collectionAsset, who)
    ensures var n := CreateStaking(c, m, who, x).1;
            && Free(n.book, c.collectionAsset, who) == Free(m.book, c.collectionAsset, who) - x
            && Cash(c, n.book) == Cash(c, m.book) + x
            && n.marketDtoken == n.totalDtoken == m.marketDtoken + x
            && At(n.userDtoken, who) == At(m.userDtoken, who) + x
  {
    if m.totalDtoken > 0 { SameRatio(x, m.totalDtoken); }
  }

  /** The entry that stays can be redeemed again: as often as cash and counters allow, a saver of u
      is paid u, each time out of what all savers paid in, and nobody's entry changes. */
  lemma {:induction false} EntryRedeemsAgain(c: Config, w: World, who: AccountId, n: nat)
    requires WellConfigured(c) && Consistent(w) && who != c.collectionAccount && w.marketDtoken == w.totalDtoken
    requires var u := At(w.userDtoken, who);
             0 < u < U128_BOUND && n * u <= Cash(c, w.book) && n * u <= w.marketDtoken
    ensures var u := At(w.userDtoken, who);
            var ops := seq(n, _ => Redeem(who, c.collectionAsset, u));
            && Runnable(c, w, ops)
            && (var m := Run(c, w, ops);
                && Free(m.book, c.collectionAsset, who) == Free(w.book, c.collectionAsset, who) + n * u
                && Cash(c, m.book) == Cash(c, w.book) - n * u
                && m.marketDtoken == m.totalDtoken == w.marketDtoken - n * u
                && m.userDtoken == w.userDtoken)
    decreases n
  {
    if n > 0 {
      var u: U128 := At(w.userDtoken, who);
      var op := Redeem(who, c.collectionAsset, u);
      OneLess(n, u);
      WholeEntryRedeemed(c, w, who);
      var m := Exec(c, w, op).1;
      ExecConsistent(c, w, op);
      EntryRedeemsAgain(c, m, who, n - 1);
      assert seq(n, _ => op)[1..] == seq(n - 1, _ => op);
    }
  }

  lemma WholeEntryRedeemed(c: Config, w: World, who: AccountId)
    requires WellConfigured(c) && who != c.collectionAccount && w.marketDtoken == w.totalDtoken
    requires 0 < At(w.userDtoken, who) <= Cash(c, w.book) && At(w.userDtoken, who) <= w.marketDtoken
    ensures var u := At(w.userDtoken, who);
            && !RedeemFaults(c, w, who, c.collectionAsset, u)
            && (var m := Redeeming(c, w, who, c.collectionAsset, u).1;
                && Free(m.book, c.collectionAsset, who) == Free(w.book, c.collectionAsset, who) + u
                && Cash(c, m.book) == Cash(c, w.book) - u
                && m.marketDtoken == m.totalDtoken == w.marketDtoken - u
                && m.userDtoken == w.userDtoken)
  {
    AllRedeemed(c, w, who);
    WorthTheirNumber(w, who);
  }

  /** A redeem that gets past its first checks divides by zero exactly when nothing is saved
      or the total has outgrown the market amount, as any positive interest would make it. */
  lemma RedeemDividesByZeroIff(w: World)
    ensures !Redeemable(w) <==> w.totalDtoken == 0 || w.marketDtoken < w.totalDtoken
  {
    if w.totalDtoken > 0 { FloorAtLeast(w.marketDtoken, w.totalDtoken, 1); }
  }

  /** A loan pays out the debt it records exactly when the borrower named a loan amount, or the
      quote is 0: with only collateral given, the quoted debt is recorded and nothing is paid. */
  lemma CashMatchesDebtIff(c: Config, w: World, who: AccountId, collateral: nat, loan: nat, price: nat)
    requires WellConfigured(c) && Consistent(w) && price > 0
    requires Applying(c, w, who, collateral, loan, price).0.Ok?
    requires who != c.collectionAccount
    ensures var n := Applying(c, w, who, collateral, loan, price).1;
            && w.nextLoanId in n.loans
            && Cash(c, w.book) - Cash(c, n.book) == loan
            && Free(n.book, c.collectionAsset, who) - Free(w.book, c.collectionAsset, who) == loan
            && (n.loans[w.nextLoanId].debt == loan <==>
                  loan != 0 || collateral * price * c.ltvLimit < PREC)
  {
    if loan == 0 { FloorAtLeast(collateral * price * c.ltvLimit, PREC, 1); }
  }

  /** Without the minimum, a collateral-free application is quoted no collateral at all exactly
      when the loan is worth less than one unit at the limit; such a loan would have nothing
      available and make the next scan divide by zero. A minimum of 1 refuses it. */
  lemma NoCollateralQuotedIff(loan: nat, price: nat, limit: nat)
    requires loan > 0 && price > 0 && limit > 0
    ensures Quote(0, loan, price, limit).Success?
    ensures Quote(0, loan, price, limit).value.collateral == 0 <==> loan * PREC < price * limit
  {
    NonZero(price, limit);
    FloorAtLeast(loan * PREC, price * limit, 1);
  }

  /** Exactly when a block faults, in terms of the state before it. The scan faults on a loan it
      cannot score. The rest faults when cash and debt leave the 128-bit range or deposits cut to 32
      bits vanish, and, with any live loan, when there is no recorded debt to divide by, the price
      vanishes in 32 bits, or a loan's credit overflows. */
  lemma BlockFaultsIff(c: Config, w: World, price: nat, order: seq<LoanId>)
    requires WellConfigured(c) && Consistent(w) && price > 0 && Enumerates(order, w.loans.Keys)
    requires w.totalDtoken < U128_BOUND
    ensures BlockFaults(c, w, price, order) <==> ScanFaults(w, price) || RateFaults(c, w, price)
  {
    ScanDefined(w, price);
    ScannedKeeps(c, w, price, order);
    var s := Scanned(c, w, price, order);
    AccrueFaultsIff(c, s, price, order);
    ScanSparesRate(c, w, s, price);
  }

  /** The rate calculation and the interest loop after the scan fault. */
  predicate RateFaults(c: Config, w: World, price: nat) {
    var f, l := Cash(c, w.book), w.totalLoan;
    || f + l >= U128_BOUND
    || (f + 2 * l > 0 &&
        (|| f + 2 * l >= U128_BOUND || l * PREC >= U128_BOUND || (f + l) % U32_BOUND == 0
         || exists id :: id in w.loans && Unchargeable(c, w.loans[id], l, price)))
  }

  predicate Unchargeable(c: Config, l: Loan, total: nat, price: nat) {
    total == 0 || price % U32_BOUND == 0 || l.available * (price % U32_BOUND) * c.ltvLimit >= U128_BOUND
  }

  lemma AccrueFaultsIff(c: Config, w: World, price: nat, order: seq<LoanId>)
    requires WellConfigured(c) && LoansSound(w.loans, w.nextLoanId) && Enumerates(order, w.loans.Keys)
    requires w.totalDtoken < U128_BOUND
    ensures AccrueFaults(c, w, price, order) <==> RateFaults(c, w, price)
  {
    if w.totalLoan < U128_BOUND {
      ChargeNothingFaultsIff(c, w, order, w.totalLoan, price);
      assert forall id :: id in w.loans <==> id in order;
      if w.totalLoan * PREC < U128_BOUND {
        assert ChargeFaults(c, w, order, 0, w.totalLoan, price) <==>
               exists id :: id in w.loans && Unchargeable(c, w.loans[id], w.totalLoan, price);
      }
    }
  }

  lemma ScanSparesRate(c: Config, w: World, s: World, price: nat)
    requires s.book == w.book && s.totalLoan == w.totalLoan && s.loans.Keys == w.loans.Keys
    requires forall id :: id in w.loans ==> s.loans[id].available == w.loans[id].available
    ensures RateFaults(c, s, price) <==> RateFaults(c, w, price)
  {
    assert forall id :: id in w.loans ==>
             (Unchargeable(c, s.loans[id], w.totalLoan, price) <==> Unchargeable(c, w.loans[id], w.totalLoan, price));
  }

  // ---------- applying and the next scan ----------

  /** A new loan is liquidated by a scan at the price it was admitted at exactly when it is too
      large for the collateral left available. Admission looked at all of the collateral; a quoted
      loan leaves all of it available, so for one this compares the limit with the threshold. */
  lemma LiquidatedAtOnceIff(c: Config, w: World, who: AccountId, collateral: nat, loan: nat, price: nat)
    requires WellConfigured(c) && Consistent(w) && price > 0
    requires Applying(c, w, who, collateral, loan, price).0.Ok?
    ensures var n := Applying(c, w, who, collateral, loan, price).1;
            && w.nextLoanId in n.loans && n.loans[w.nextLoanId].available * price != 0
            && (NewlyLiquidating(c, n.loans[w.nextLoanId], price) <==>
                  if loan > 0 then loan * PREC >= (collateral - loan / price) * price * c.liquidationThreshold
                  else collateral * price * c.ltvLimit / PREC * PREC >= collateral * price * c.liquidationThreshold)
  {
    OpenedLoan(c, w, who, collateral, loan, price);
    var l := Applying(c, w, who, collateral, loan, price).1.loans[w.nextLoanId];
    NonZero(l.available, price);
    FloorAtLeast(l.debt * PREC, l.available * price, c.liquidationThreshold);
  }

  lemma OpenedLoan(c: Config, w: World, who: AccountId, collateral: nat, loan: nat, price: nat)
    requires WellConfigured(c) && price > 0 && Applying(c, w, who, collateral, loan, price).0.Ok?
    ensures var n := Applying(c, w, who, collateral, loan, price).1;
            && w.nextLoanId in n.loans && collateral > loan / price
            && (loan == 0 ==> loan / price == 0)
            && (var l := n.loans[w.nextLoanId];
                && l.status == Well && l.available == collateral - loan / price
                && l.debt == if loan > 0 then loan else collateral * price * c.ltvLimit / PREC)
  {
    AdmittedLeavesCollateral(collateral, loan, price, c.ltvLimit);
    if loan == 0 { SmallFloor(loan, price); }
  }

  /** A threshold far enough above the limit rules this out for every application, quoted or named:
      limit * (100% + threshold) <= threshold * 100%. */
  lemma HighThresholdSparesNewLoans(c: Config, w: World, who: AccountId, collateral: nat, loan: nat, price: nat)
    requires WellConfigured(c) && Consistent(w) && price > 0
    requires Applying(c, w, who, collateral, loan, price).0.Ok?
    requires c.ltvLimit * (PREC + c.liquidationThreshold) <= c.liquidationThreshold * PREC
    ensures var n := Applying(c, w, who, collateral, loan, price).1;
            && w.nextLoanId in n.loans && n.loans[w.nextLoanId].available * price != 0
            && !NewlyLiquidating(c, n.loans[w.nextLoanId], price)
  {
    AdmittedLeavesCollateral(collateral, loan, price, c.ltvLimit);
    if loan > 0 {
      CheckAdmitsIff(collateral, loan, price, c.ltvLimit);
      AdmittedHasRoom(collateral, loan, price, c.ltvLimit, c.liquidationThreshold);
      LiquidatedAtOnceIff(c, w, who, collateral, loan, price);
    } else {
      QuotedHasRoom(collateral, price, c.ltvLimit, c.liquidationThreshold);
    }
  }

  lemma QuotedHasRoom(collateral: nat, price: nat, limit: nat, t: nat)
    requires collateral > 0 && price > 0 && limit > 0 && limit * (PREC + t) <= t * PREC
    ensures collateral * price > 0 && Quote(collateral, 0, price, limit).Success? && 0 / price == 0
    ensures Ltv(collateral, Quote(collateral, 0, price, limit).value.loan, price) < t
  {
    QuotedLoanIsTight(collateral, price, limit);
    LimitBelowThreshold(limit, t);
  }

  lemma AdmittedHasRoom(collateral: nat, loan: nat, price: nat, limit: nat, t: nat)
    requires price > 0 && limit < PREC && limit * (PREC + t) <= t * PREC && loan / price <= collateral
    requires loan * PREC < collateral * price * limit
    ensures loan * PREC < (collateral - loan / price) * price * t
  {
    var worth, left := collateral * price, (collateral - loan / price) * price;
    RoomBelowThreshold(worth, loan, limit, t);
    AvailableWorth(collateral, loan, price);
    MulMonotone(t, worth - loan, left);
    Swap(left, t);
  }

  lemma AvailableWorth(collateral: nat, loan: nat, price: nat)
    requires price > 0 && loan / price <= collateral
    ensures (collateral - loan / price) * price >= collateral * price - loan
  {
    QuotientBounds(loan, price);
  }

  /** From loan * 100% < worth * limit to loan * 100% < (worth - loan) * threshold. */
  lemma RoomBelowThreshold(worth: nat, loan: nat, limit: nat, t: nat)
    requires limit < PREC && loan * PREC < worth * limit && limit * (PREC + t) <= t * PREC
    ensures loan <= worth && loan * PREC < t * (worth - loan)
  {
    MulMonotone(worth, limit, PREC);
    StrictFactor(PREC + t, loan * PREC, worth * limit);
    MulMonotone(worth, limit * (PREC + t), t * PREC);
    Rotate(PREC + t, worth, limit);
    Reassociate(PREC + t, loan, PREC);
    Reassociate(worth, t, PREC);
    assert (PREC + t) * loan < worth * t;
    Distribute(t, worth - loan, loan);
    Swap(worth, t);
    assert (PREC + t) * loan == PREC * loan + t * loan;
  }

  lemma Rotate(x: nat, y: nat, z: nat)
    ensures x * (y * z) == y * (z * x)
  {
  }

  lemma LimitBelowThreshold(limit: nat, t: nat)
    requires 0 < limit && limit * (PREC + t) <= t * PREC
    ensures limit < t
  {
    Distribute(limit, PREC, t);
    if t > 0 { NonZero(limit, t); }
  }

  /** The development genesis, a limit of 66.67% and a threshold of 100%, admits a loan of 60% of
      its collateral's worth and liquidates it at the same price. */
  lemma ShippedLimitsLiquidateAtOnce(c: Config, w: World, who: AccountId)
    requires WellConfigured(c) && Consistent(w)
    requires c.ltvLimit == 6666_6667 && c.liquidationThreshold == 1_0000_0000 && c.loanCap.None?
    requires c.minimumCollateral <= 1_000_000
    requires Cash(c, w.book) >= 6_000_000_000 && Free(w.book, c.collateralAsset, who) >= 1_000_000
    ensures var (r, n) := Applying(c, w, who, 1_000_000, 6_000_000_000, 1_0000);
            && r.Ok? && w.nextLoanId in n.loans && n.loans[w.nextLoanId].available * 1_0000 != 0
            && NewlyLiquidating(c, n.loans[w.nextLoanId], 1_0000)
  {
    CheckAdmitsIff(1_000_000, 6_000_000_000, 1_0000, c.ltvLimit);
    LiquidatedAtOnceIff(c, w, who, 1_000_000, 6_000_000_000, 1_0000);
  }

  // ---------- draws ----------

  /** A draw that succeeds leaves the loan's LTV, at the price the scan uses, below the limit exactly
      under this condition on the state before it, for draws of every size. The code checks only that
      the amount is within the credit of the available collateral at the price cut to 32 bits,
      whatever is already owed. */
  lemma DrawKeepsLimitIff(c: Config, w: World, who: AccountId, id: LoanId, amount: nat, price: nat)
    requires WellConfigured(c) && Consistent(w) && !DrawFaults(c, w, who, id, amount, price)
    requires Drawing(c, w, who, id, amount, price).0.Ok?
    ensures var n, l, p := Drawing(c, w, who, id, amount, price).1, w.loans[id], price % U32_BOUND;
            && id in n.loans && p > 0 && amount / p < l.available && n.loans[id].available * price != 0
            && (Ltv(n.loans[id].available, n.loans[id].debt, price) < c.ltvLimit <==>
                  (l.debt + amount) * PREC < (l.available - amount / p) * price * c.ltvLimit)
  {
    var l, p := w.loans[id], price % U32_BOUND;
    DrawLeavesCollateral(l.available, amount, p, c.ltvLimit);
    var left := l.available - amount / p;
    NonZero(left, price);
    FloorAtLeast((l.debt + amount) * PREC, left * price, c.ltvLimit);
  }

  ghost function DrawnTimes(c: Config, w: World, who: AccountId, id: LoanId, amount: nat, price: nat, n: nat): World
    requires WellConfigured(c) && Dust(c, w, who, id, amount, price) && w.totalLoan + n * amount < U128_BOUND
    decreases n
  {
    if n == 0 then w
    else
      OneDust(c, w, who, id, amount, price, n);
      DrawnTimes(c, Drawing(c, w, who, id, amount, price).1, who, id, amount, price, n - 1)
  }

  /** A draw of less than one unit of collateral's price, within the credit. */
  ghost predicate Dust(c: Config, w: World, who: AccountId, id: LoanId, amount: nat, price: nat) {
    var p := price % U32_BOUND;
    && LoansSound(w.loans, w.nextLoanId) && id in w.loans && w.loans[id].who == who
    && 0 < amount < p && w.loans[id].available * p * c.ltvLimit < U128_BOUND
    && amount <= Credit(w.loans[id].available, p, c.ltvLimit)
  }

  lemma OneDust(c: Config, w: World, who: AccountId, id: LoanId, amount: nat, price: nat, n: nat)
    requires WellConfigured(c) && Dust(c, w, who, id, amount, price) && n > 0 && w.totalLoan + n * amount < U128_BOUND
    ensures !DrawFaults(c, w, who, id, amount, price)
    ensures var m := Drawing(c, w, who, id, amount, price).1;
            && m == w.(loans := w.loans[id := w.loans[id].(debt := w.loans[id].debt + amount)],
                   totalLoan := w.totalLoan + amount)
            && Dust(c, m, who, id, amount, price) && m.totalLoan + (n - 1) * amount < U128_BOUND
  {
    OneLess(n, amount);
    SmallFloor(amount, price % U32_BOUND);
  }

  lemma OneLess(n: nat, x: nat)
    requires n > 0
    ensures n * x == (n - 1) * x + x && (n - 1) * x >= 0
  {
  }

  lemma SmallFloor(a: nat, b: nat)
    requires a < b
    ensures a / b == 0
  {
  }

  /** The credit looks at the collateral only and small draws do not lower it, so any number of
      them succeeds and the LTV passes the limit as soon as the debt is large enough. */
  lemma {:induction false} DustDrawsPassTheLimit(c: Config, w: World, who: AccountId, id: LoanId, amount: nat,
      price: nat, n: nat)
    requires WellConfigured(c) && Dust(c, w, who, id, amount, price) && w.totalLoan + n * amount < U128_BOUND
    ensures var m, l := DrawnTimes(c, w, who, id, amount, price, n), w.loans[id];
            && id in m.loans && m.loans[id] == l.(debt := l.debt + n * amount)
            && m.totalLoan == w.totalLoan + n * amount
            && l.available * price != 0
            && (Ltv(l.available, m.loans[id].debt, price) >= c.ltvLimit <==>
                  (l.debt + n * amount) * PREC >= l.available * price * c.ltvLimit)
    decreases n
  {
    var l := w.loans[id];
    NonZero(l.available, price);
    if n > 0 {
      OneDust(c, w, who, id, amount, price, n);
      DustDrawsPassTheLimit(c, Drawing(c, w, who, id, amount, price).1, who, id, amount, price, n - 1);
      OneLess(n, amount);
    }
    FloorAtLeast((l.debt + n * amount) * PREC, l.available * price, c.ltvLimit);
  }

  // ---------- add_collateral and the rollback ----------

  /** A borrower whose collateral is all the shop holds adds some, up to what was in use, and
      then repays: the repayment fails, the totals are raised instead of lowered, and no
      balance has changed. */
  lemma AddThenRepayRollsBack(c: Config, w: World, who: AccountId, id: LoanId, amount: nat)
    requires WellConfigured(c) && Consistent(w)
    requires id in w.loans && w.loans[id].who == who && id !in w.liquidating && who != c.collectionAccount
    requires Free(w.book, c.collateralAsset, c.pawnShop) == w.loans[id].original
    requires 0 < amount <= w.loans[id].original - w.loans[id].available
    requires AddingCollateral(c, w, who, id, amount).0.Ok? && !AddFaults(c, w, who, id, amount)
    requires Free(AddingCollateral(c, w, who, id, amount).1.book, c.loanAsset, who) >= w.loans[id].debt
    ensures Consistent(AddingCollateral(c, w, who, id, amount).1)
    ensures var m := AddingCollateral(c, w, who, id, amount).1;
            var (r, n) := Repaying(c, m, who, id);
            && r.Err?
            && n.totalLoan == m.totalLoan + m.loans[id].debt
            && n.totalCollateral == m.totalCollateral + m.loans[id].available
            && n.loans == m.loans
            && (forall a: AssetId, x: AccountId :: Free(n.book, a, x) == Free(m.book, a, x))
  {
    AddingKeeps(c, w, who, id, amount);
    OtherAssetStays(w.book, c.collectionAsset, who, c.pawnShop, amount, c.collateralAsset, c.pawnShop);
    assert RepayRollsBack(c, AddingCollateral(c, w, who, id, amount).1, who, id);
  }

  // ---------- paying out a liquidation ----------

  /** What is left in the collection account once the penalty went to the profit pool. */
  function CashAfterPenalty(c: Config, cash: int, penalty: int): int {
    if c.profitPool == c.collectionAccount then cash else cash - penalty
  }

  /** A liquidation that passes its checks is paid out exactly when there is no surplus, or the
      collection account, with the debt just received, covers first the penalty and then the rest
      of the surplus: the surplus is never taken from the liquidation account. */
  lemma LiquidationPaysIff(c: Config, w: World, caller: AccountId, id: LoanId, auction: nat)
    requires LiquidatePasses(c, w, caller, id, auction) && !LiquidateFaults(c, w, caller, id, auction)
    ensures MarkingLiquidated(c, w, caller, id, auction).0.Ok? <==>
            var surplus, cash := auction - w.loans[id].debt, CashAfterDebt(c, w.book, caller, w.loans[id].debt);
            surplus == 0 || (cash >= Penalty(c, surplus)
                             && CashAfterPenalty(c, cash, Penalty(c, surplus)) >= surplus - Penalty(c, surplus))
  {
    var l := w.loans[id];
    MoveDelta(w.book, c.loanAsset, caller, c.collectionAccount, l.debt, c.loanAsset, c.collectionAccount);
    var paid := Moved(w.book, c.loanAsset, caller, c.collectionAccount, l.debt);
    var penalty := Penalty(c, auction - l.debt);
    if Free(paid, c.loanAsset, c.collectionAccount) >= penalty {
      MoveDelta(paid, c.loanAsset, c.collectionAccount, c.profitPool, penalty, c.loanAsset, c.collectionAccount);
    }
  }

  /** A liquidation that passes its checks and is not paid out has moved money, and the loan is
      still there. If the penalty was not covered the debt stays with the collection account, at the
      caller's expense or, when it holds that much, the shop's. Otherwise the collection account
      keeps the debt less the penalty, the caller is out of as much, and gets all of the loan's
      collateral from the shop if the shop holds it. */
  lemma FailedLiquidationMovesMoney(c: Config, w: World, caller: AccountId, id: LoanId, l: Loan, auction: nat,
      x: AccountId)
    requires WellConfigured(c) && id in w.loans && w.loans[id] == l
    requires LiquidatePasses(c, w, caller, id, auction) && !LiquidateFaults(c, w, caller, id, auction)
    requires MarkingLiquidated(c, w, caller, id, auction).0.Err?
    ensures var n := MarkingLiquidated(c, w, caller, id, auction).1;
            OnlyMoneyMoved(w, n) && PaidInPart(c, w.book, n.book, l, caller, auction - l.debt, x)
  {
    PayoutFailed(c, w, caller, id, auction);
    FailedPayout(c, w.book, MarkingLiquidated(c, w, caller, id, auction).1.book, l, caller, auction, x);
  }

  lemma FailedPayout(c: Config, b: Book, n: Book, l: Loan, caller: AccountId, auction: nat, x: AccountId)
    requires WellConfigured(c) && Free(b, c.loanAsset, caller) >= auction >= l.debt
    requires Payout(c, b, l, caller, auction).0.Err? && n == Payout(c, b, l, caller, auction).1
    ensures PaidInPart(c, b, n, l, caller, auction - l.debt, x)
  {
    if CashAfterDebt(c, b, caller, l.debt) < Penalty(c, auction - l.debt) {
      PenaltyUncovered(c, b, l, caller, auction, x);
    } else {
      RemainderUncovered(c, b, l, caller, auction, x);
    }
  }

  /** What account x holds after a payout that failed at the penalty, or at the rest of the surplus. */
  predicate PaidInPart(c: Config, b: Book, n: Book, l: Loan, caller: AccountId, surplus: nat, x: AccountId) {
    if CashAfterDebt(c, b, caller, l.debt) < Penalty(c, surplus) then PenaltyUnpaid(c, b, n, l, caller, x)
    else RestUnpaid(c, b, n, l, caller, Penalty(c, surplus), x)
  }

  /** Every table and counter is as before. */
  predicate OnlyMoneyMoved(w: World, n: World) {
    n == w.(book := n.book)
  }

  /** The debt stays with the collection account, at the shop's expense if it held as much then. */
  predicate PenaltyUnpaid(c: Config, b: Book, n: Book, l: Loan, caller: AccountId, x: AccountId) {
    var shop := c.pawnShop;
    var held := Free(b, c.loanAsset, shop) + Got(shop, c.collectionAccount, l.debt) - Got(shop, caller, l.debt);
    && Free(n, c.loanAsset, x) == Free(b, c.loanAsset, x) + Got(x, c.collectionAccount, l.debt)
                                - Got(x, if held >= l.debt then shop else caller, l.debt)
    && Free(n, c.collateralAsset, x) == Free(b, c.collateralAsset, x)
  }

  /** The debt less the penalty stays with the collection account at the caller's expense, and the
      caller gets the collateral if the shop holds it. */
  predicate RestUnpaid(c: Config, b: Book, n: Book, l: Loan, caller: AccountId, penalty: nat, x: AccountId) {
    && Free(n, c.loanAsset, x) == Free(b, c.loanAsset, x) + Got(x, c.collectionAccount, l.debt - penalty)
                                - Got(x, caller, l.debt - penalty)
    && Free(n, c.collateralAsset, x) == Free(b, c.collateralAsset, x)
       + if Free(b, c.collateralAsset, c.pawnShop) >= l.original
         then Got(x, caller, l.original) - Got(x, c.pawnShop, l.original) else 0
  }

  lemma PayoutFailed(c: Config, w: World, caller: AccountId, id: LoanId, auction: nat)
    requires LiquidatePasses(c, w, caller, id, auction) && MarkingLiquidated(c, w, caller, id, auction).0.Err?
    ensures var (r, b) := Payout(c, w.book, w.loans[id], caller, auction);
            var n := MarkingLiquidated(c, w, caller, id, auction).1;
            r.Err? && n.book == b && OnlyMoneyMoved(w, n)
  {
  }

  lemma DebtIn(c: Config, b: Book, caller: AccountId, debt: nat, x: AccountId)
    requires WellConfigured(c) && Free(b, c.loanAsset, caller) >= debt
    ensures var paid := Moved(b, c.loanAsset, caller, c.collectionAccount, debt);
            && Free(paid, c.loanAsset, x) == Free(b, c.loanAsset, x) + Got(x, c.collectionAccount, debt)
                                           - Got(x, caller, debt)
            && Free(paid, c.collateralAsset, x) == Free(b, c.collateralAsset, x)
            && Free(paid, c.loanAsset, c.collectionAccount) == CashAfterDebt(c, b, caller, debt)
  {
    MoveDelta(b, c.loanAsset, caller, c.collectionAccount, debt, c.loanAsset, x);
    MoveDelta(b, c.loanAsset, caller, c.collectionAccount, debt, c.collateralAsset, x);
    MoveDelta(b, c.loanAsset, caller, c.collectionAccount, debt, c.loanAsset, c.collectionAccount);
  }

  lemma PenaltyUncovered(c: Config, b: Book, l: Loan, caller: AccountId, auction: nat, x: AccountId)
    requires WellConfigured(c) && Free(b, c.loanAsset, caller) >= auction >= l.debt
    requires CashAfterDebt(c, b, caller, l.debt) < Penalty(c, auction - l.debt)
    ensures PenaltyUnpaid(c, b, Payout(c, b, l, caller, auction).1, l, caller, x)
  {
    var paid := Moved(b, c.loanAsset, caller, c.collectionAccount, l.debt);
    DebtIn(c, b, caller, l.debt, x);
    DebtIn(c, b, caller, l.debt, c.pawnShop);
    NoSurplusNoPenalty(c, auction - l.debt);
    assert Payout(c, b, l, caller, auction).1 == Transfer(paid, c.loanAsset, c.pawnShop, caller, l.debt).1;
    if Free(paid, c.loanAsset, c.pawnShop) >= l.debt {
      MoveDelta(paid, c.loanAsset, c.pawnShop, caller, l.debt, c.loanAsset, x);
      MoveDelta(paid, c.loanAsset, c.pawnShop, caller, l.debt, c.collateralAsset, x);
    }
  }

  lemma NoSurplusNoPenalty(c: Config, surplus: nat)
    requires Penalty(c, surplus) > 0
    ensures surplus > 0
  {
    assert 0 * c.liquidationPenalty == 0;
  }

  lemma RemainderUncovered(c: Config, b: Book, l: Loan, caller: AccountId, auction: nat, x: AccountId)
    requires WellConfigured(c) && Free(b, c.loanAsset, caller) >= auction >= l.debt
    requires CashAfterDebt(c, b, caller, l.debt) >= Penalty(c, auction - l.debt)
    requires Payout(c, b, l, caller, auction).0.Err?
    ensures RestUnpaid(c, b, Payout(c, b, l, caller, auction).1, l, caller, Penalty(c, auction - l.debt), x)
  {
    var paid := Moved(b, c.loanAsset, caller, c.collectionAccount, l.debt);
    var penalty := Penalty(c, auction - l.debt);
    DebtIn(c, b, caller, l.debt, x);
    DebtIn(c, b, caller, l.debt, c.pawnShop);
    PenaltyAndBack(c, paid, caller, penalty, x);
    PenaltyAndBack(c, paid, caller, penalty, c.pawnShop);
    var b1 := Moved(paid, c.loanAsset, c.collectionAccount, c.profitPool, penalty);
    var b2 := Moved(b1, c.loanAsset, c.profitPool, caller, penalty);
    PayoutUndone(c, b, l, caller, auction);
    if Free(b2, c.collateralAsset, c.pawnShop) >= l.original {
      MoveDelta(b2, c.collateralAsset, c.pawnShop, caller, l.original, c.loanAsset, x);
      MoveDelta(b2, c.collateralAsset, c.pawnShop, caller, l.original, c.collateralAsset, x);
    }
  }

  /** The transfers a payout makes when only its last one is not covered. */
  lemma PayoutUndone(c: Config, b: Book, l: Loan, caller: AccountId, auction: nat)
    requires WellConfigured(c) && Free(b, c.loanAsset, caller) >= auction >= l.debt
    requires CashAfterDebt(c, b, caller, l.debt) >= Penalty(c, auction - l.debt)
    requires Payout(c, b, l, caller, auction).0.Err?
    ensures var paid := Moved(b, c.loanAsset, caller, c.collectionAccount, l.debt);
            var penalty := Penalty(c, auction - l.debt);
            && Free(paid, c.loanAsset, c.collectionAccount) >= penalty
            && (var b1 := Moved(paid, c.loanAsset, c.collectionAccount, c.profitPool, penalty);
                && Free(b1, c.loanAsset, c.profitPool) >= penalty
                && (var b2 := Moved(b1, c.loanAsset, c.profitPool, caller, penalty);
                    Payout(c, b, l, caller, auction).1 ==
                    Transfer(b2, c.collateralAsset, c.pawnShop, caller, l.original).1))
  {
    DebtIn(c, b, caller, l.debt, caller);
    PenaltyAndBack(c, Moved(b, c.loanAsset, caller, c.collectionAccount, l.debt), caller,
      Penalty(c, auction - l.debt), caller);
  }

  /** The penalty goes to the pool and from there to the caller, which the pool can always pay. */
  lemma PenaltyAndBack(c: Config, b: Book, caller: AccountId, penalty: nat, x: AccountId)
    requires WellConfigured(c) && Free(b, c.loanAsset, c.collectionAccount) >= penalty
    ensures var b1 := Moved(b, c.loanAsset, c.collectionAccount, c.profitPool, penalty);
            && Free(b1, c.loanAsset, c.profitPool) >= penalty
            && (var b2 := Moved(b1, c.loanAsset, c.profitPool, caller, penalty);
                && Free(b2, c.loanAsset, x) == Free(b, c.loanAsset, x)
                                             + Got(x, caller, penalty) - Got(x, c.collectionAccount, penalty)
                && Free(b2, c.collateralAsset, x) == Free(b, c.collateralAsset, x))
  {
    var a, coll, pool := c.loanAsset, c.collectionAccount, c.profitPool;
    MoveDelta(b, a, coll, pool, penalty, a, pool);
    var b1 := Moved(b, a, coll, pool, penalty);
    MoveDelta(b, a, coll, pool, penalty, a, x);
    MoveDelta(b, a, coll, pool, penalty, c.collateralAsset, x);
    MoveDelta(b1, a, pool, caller, penalty, a, x);
    MoveDelta(b1, a, pool, caller, penalty, c.collateralAsset, x);
  }
}
