/** The deposit-loan pallet: storage cells updated in place over the asset ledger, one method a
    call, written in the order the code writes and each proved against its meaning in Lending. */
module DepositLoan {
  import opened Base
  import opened Sums
  import opened Ledger
  import opened GenericAsset
  import opened LoanMath
  import opened Lending
  import opened LendingInvariant
  import opened LendingBlock

  // ---------- the scan, partly done ----------

  ghost function PartlyScanned(c: Config, loans: map<LoanId, Loan>, price: nat, done: seq<LoanId>): map<LoanId, Loan>
    requires forall id :: id in loans ==> loans[id].available * price != 0
  {
    map id | id in loans :: if id in done then Rescored(c, loans[id], price) else loans[id]
  }

  lemma ScanBegins(c: Config, loans: map<LoanId, Loan>, price: nat)
    requires forall id :: id in loans ==> loans[id].available * price != 0
    ensures PartlyScanned(c, loans, price, []) == loans
  {
  }

  lemma ScanAdvances(c: Config, loans: map<LoanId, Loan>, price: nat, done: seq<LoanId>, id: LoanId)
    requires forall i :: i in loans ==> loans[i].available * price != 0
    requires id in loans && id !in done
    ensures id in PartlyScanned(c, loans, price, done) && PartlyScanned(c, loans, price, done)[id] == loans[id]
    ensures PartlyScanned(c, loans, price, done + [id]) ==
        PartlyScanned(c, loans, price, done)[id := Rescored(c, loans[id], price)]
  {
  }

  lemma ScanEnds(c: Config, loans: map<LoanId, Loan>, price: nat, done: seq<LoanId>)
    requires forall i :: i in loans ==> loans[i].available * price != 0
    requires Enumerates(done, loans.Keys)
    ensures PartlyScanned(c, loans, price, done) == Rescan(c, loans, price)
  {
    assert forall id :: id in loans ==> id in done;
  }

  lemma {:induction false} NewInSnoc(c: Config, loans: map<LoanId, Loan>, price: nat, done: seq<LoanId>, id: LoanId)
    requires forall i :: i in done + [id] ==> i in loans && loans[i].available * price != 0
    ensures forall i :: i in done ==> i in loans && loans[i].available * price != 0
    ensures id in loans && loans[id].available * price != 0
    ensures NewIn(c, loans, price, done + [id]) ==
            NewIn(c, loans, price, done) + if NewlyLiquidating(c, loans[id], price) then [id] else []
  {
    assert id in done + [id] && forall i :: i in done ==> i in done + [id];
    if done == [] {
      assert done + [id] == [id];
    } else {
      assert (done + [id])[1..] == done[1..] + [id];
      assert forall i :: i in done[1..] + [id] ==> i in done + [id];
      NewInSnoc(c, loans, price, done[1..], id);
    }
  }

  /** Stored dtoken balances are u128 values. */
  ghost predicate DtokensFit(userDtoken: map<AccountId, nat>) {
    forall who :: who in userDtoken ==> userDtoken[who] < U128_BOUND
  }

  class Saving {
    const cfg: Config
    const assets: Assets
    var loans: map<LoanId, Loan>
    var loansByAccount: map<AccountId, seq<LoanId>>
    var liquidatingLoans: seq<LoanId>
    var nextLoanId: U64
    var totalLoan: U128
    var totalCollateral: U128
    var marketDtoken: U128
    var totalDtoken: U128
    var userDtoken: map<AccountId, nat>
    var bonusTime: nat
    var loanInterestRateCurrent: nat
    var savingInterestRate: nat

    ghost function View(): World
      reads this, assets
    {
      World(assets.View(), loans, loansByAccount, liquidatingLoans, nextLoanId, totalLoan, totalCollateral,
            marketDtoken, totalDtoken, userDtoken, bonusTime, loanInterestRateCurrent, savingInterestRate)
    }

    ghost predicate Valid()
      reads this, assets
    {
      WellConfigured(cfg) && Consistent(View()) && DtokensFit(userDtoken)
    }

    constructor (cfg: Config, assets: Assets)
      requires WellConfigured(cfg) && assets.Valid()
      ensures Valid() && this.cfg == cfg && this.assets == assets
      ensures loans == map[] && loansByAccount == map[] && liquidatingLoans == [] && userDtoken == map[]
      ensures totalLoan == totalCollateral == marketDtoken == totalDtoken == nextLoanId == 0
    {
      this.cfg := cfg;
      this.assets := assets;
      loans, loansByAccount, liquidatingLoans, userDtoken := map[], map[], [], map[];
      nextLoanId, totalLoan, totalCollateral, marketDtoken, totalDtoken := 0, 0, 0, 0, 0;
      bonusTime, loanInterestRateCurrent, savingInterestRate := 0, 0, 0;
      new;
      assert Debts(loans) == map[] && Originals(loans) == map[];
    }

    // ---------- saving ----------

    method CreateStaking(who: AccountId, assetId: AssetId, balance: U128) returns (r: DispatchResult)
      requires Valid() && assetId == cfg.collectionAsset
      requires !StakeFaults(cfg, View(), who, balance)
      modifies this`userDtoken, this`marketDtoken, this`totalDtoken, assets
      ensures Valid() && (r, View()) == Lending.CreateStaking(cfg, old(View()), who, balance)
    {
      ghost var w := View();
      if balance == 0 { return Err(ZeroSaving); }
      var market := marketDtoken;
      var total := totalDtoken;
      var t := assets.MakeTransfer(assetId, who, cfg.collectionAccount, balance);
      if t.Err? { return t; }
      var minted := MintFor(balance, market, total);
      RecordStake(who, minted, market, balance);
      StakingKeeps(cfg, w, who, balance);
      assert View() == Lending.CreateStaking(cfg, w, who, balance).1;
      return Ok;
    }

    /** The counters of a stake; the additions are checked ones whose expect never fires. */
    method RecordStake(who: AccountId, minted: U128, market: U128, balance: U128)
      requires DtokensFit(userDtoken) && At(userDtoken, who) + minted < U128_BOUND
      requires market + minted < U128_BOUND && market + balance < U128_BOUND
      modifies this`userDtoken, this`marketDtoken, this`totalDtoken
      ensures userDtoken == old(userDtoken)[who := At(old(userDtoken), who) + minted] && DtokensFit(userDtoken)
      ensures marketDtoken == market + minted && totalDtoken == market + balance
    {
      if who in userDtoken {
        var sum: U128 := userDtoken[who] + minted;
        userDtoken := userDtoken[who := sum];
      } else {
        userDtoken := userDtoken[who := minted];
      }
      marketDtoken := market + minted;
      totalDtoken := market + balance;
    }

    /** The new dtokens for a stake; the product is checked, the quotient then fits. */
    static method MintFor(balance: U128, market: U128, total: U128) returns (minted: U128)
      requires total != 0 ==> balance * market < U128_BOUND
      ensures minted == if total == 0 then balance else balance * market / total
    {
      if total == 0 { return balance; }
      var product: U128 := balance * market;
      QuotientAtMost(product, total);
      minted := product / total;
    }

    method StakingCall(who: AccountId, assetId: AssetId, amount: U128) returns (r: DispatchResult)
      requires Valid() && (assetId == cfg.collectionAsset ==> !StakeFaults(cfg, View(), who, amount))
      modifies this`userDtoken, this`marketDtoken, this`totalDtoken, assets
      ensures Valid() && (r, View()) == Staking(cfg, old(View()), who, assetId, amount)
    {
      if cfg.collectionAsset != assetId { return Err(WrongAsset); }
      if At(assets.freeBalance, (assetId, who)) < amount { return Err(InsufficientBalance); }
      r := CreateStaking(who, assetId, amount);
    }

    /** What a saver's dtokens are worth: two divisions, both by something above 0. */
    method Worth(who: AccountId) returns (get: U128)
      requires Redeemable(View()) && DtokensFit(userDtoken)
      ensures get == WillGet(View(), who) && get <= At(userDtoken, who)
    {
      var held := At(userDtoken, who);
      var ratio := marketDtoken / totalDtoken;
      QuotientAtMost(held, ratio);
      get := held / ratio;
    }

    method MakeRedeemAll(who: AccountId) returns (r: DispatchResult)
      requires Valid() && Redeemable(View())
      modifies this`marketDtoken, this`totalDtoken, assets
      ensures Valid() && (r, View()) == RedeemAll(cfg, old(View()), who)
    {
      ghost var w := View();
      var held := At(userDtoken, who);
      var get := Worth(who);
      if At(assets.freeBalance, (cfg.collectionAsset, cfg.collectionAccount)) < get { return Err(SavingBalanceShort); }
      if totalDtoken < held { return Err(TotalDtokenShort); }
      if marketDtoken < held { return Err(MarketDtokenShort); }
      var total: U128 := totalDtoken - get;
      var market: U128 := marketDtoken - held;
      marketDtoken := market;
      totalDtoken := total;
      r := assets.MakeTransfer(cfg.collectionAsset, cfg.collectionAccount, who, get);
      RedeemAllKeeps(cfg, w, who);
      assert (r, View()) == RedeemAll(cfg, w, who);
    }

    /** Both inner results are dropped, as unwrap_or_default drops them. */
    method RedeemCall(who: AccountId, assetId: AssetId, amount: U128) returns (r: DispatchResult)
      requires Valid() && !RedeemFaults(cfg, View(), who, assetId, amount)
      modifies this`userDtoken, this`marketDtoken, this`totalDtoken, assets
      ensures Valid() && (r, View()) == Redeeming(cfg, old(View()), who, assetId, amount)
    {
      RedeemingKeeps(cfg, View(), who, assetId, amount);
      var pool := (cfg.collectionAsset, cfg.collectionAccount);
      if At(assets.freeBalance, pool) < amount { return Err(NotEnoughToRedeem); }
      if cfg.collectionAsset != assetId { return Err(WrongAsset); }
      var get := Worth(who);
      if get < amount { return Err(RedeemTooMuch); }
      var dropped := MakeRedeemAll(who);
      dropped := CreateStaking(who, cfg.collectionAsset, get - amount);
      return Ok;
    }

    // ---------- borrowing ----------

    /** get_collateral_loan with every product formed in u128. */
    method GetCollateralLoan(collateral: U128, loan: U128, price: U64) returns (r: Result<CollateralLoan>)
      requires Valid() && price > 0
      requires (collateral != 0 || loan != 0) ==> !QuoteOverflows(collateral, loan, price, cfg.ltvLimit)
      ensures r == Quote(collateral, loan, price, cfg.ltvLimit)
    {
      if collateral == 0 && loan == 0 { return Failure(InvalidCollateralLoanAmounts); }
      var limit := cfg.ltvLimit;
      if collateral == 0 {
        NonZero(price, limit);
        PriceTimesLimitFits(price, limit);
        var scaled: U128 := loan * LTV_PREC * PRICE_PREC;
        var worth: U128 := price * limit;
        return Success(CollateralLoan(scaled / worth, loan));
      }
      if loan == 0 {
        ProductFits(collateral * price, limit);
        var worth: U128 := collateral * price;
        var scaled: U128 := worth * limit;
        return Success(CollateralLoan(collateral, scaled / (LTV_PREC * PRICE_PREC)));
      }
      NonZero(collateral, price);
      var scaled: U128 := loan * LTV_PREC * PRICE_PREC;
      var worth: U128 := collateral * price;
      if scaled / worth >= limit { return Failure(OverLTVLimit); }
      return Success(CollateralLoan(collateral, loan));
    }

    method ApplyForLoan(who: AccountId, collateral: U128, loan: U128, price: U64) returns (r: DispatchResult)
      requires Valid() && price > 0 && !ApplyFaults(cfg, View(), who, collateral, loan, price)
      modifies this`loans, this`loansByAccount, this`nextLoanId, this`totalLoan, this`totalCollateral, assets
      ensures Valid() && (r, View()) == Applying(cfg, old(View()), who, collateral, loan, price)
    {
      ghost var w := View();
      if At(assets.freeBalance, (cfg.collectionAsset, cfg.collectionAccount)) < loan { return Err(NotEnoughToLoan); }
      if cfg.loanCap.Some? && totalLoan >= cfg.loanCap.value { return Err(ReachLoanCap); }
      var q := GetCollateralLoan(collateral, loan, price);
      if q.Failure? { return Err(q.error); }
      if collateral < cfg.minimumCollateral { return Err(BelowMinimumCollateral); }
      AdmittedLeavesCollateral(collateral, loan, price, cfg.ltvLimit);
      AdmittedFits(cfg, w, who, collateral, loan, price);
      r := OpenLoan(who, q.value, loan, price);
      ApplyingKeeps(cfg, w, who, collateral, loan, price);
      assert View() == Applying(cfg, w, who, collateral, loan, price).1;
    }

    /** The writing part of apply: collateral in, next id, cash out, then the tables. */
    method OpenLoan(who: AccountId, q: CollateralLoan, loan: U128, price: U64) returns (r: DispatchResult)
      requires assets.Valid() && price > 0 && cfg.collateralAsset != cfg.collectionAsset
      requires Cash(cfg, assets.View()) >= loan && loan / price < q.collateral < U128_BOUND
      requires Free(assets.View(), cfg.collateralAsset, who) >= q.collateral ==>
                 nextLoanId + 1 < U64_BOUND && totalLoan + q.loan < U128_BOUND &&
                     totalCollateral + q.collateral < U128_BOUND
      modifies this`loans, this`loansByAccount, this`nextLoanId, this`totalLoan, this`totalCollateral, assets
      ensures assets.Valid() && (r, View()) == Opening(cfg, old(View()), who, q, loan, price)
    {
      var t := assets.MakeTransfer(cfg.collateralAsset, who, cfg.pawnShop, q.collateral);
      if t.Err? { return t; }
      var id := nextLoanId;
      nextLoanId := nextLoanId + 1;
      FloorMonotone(0, loan, price);
      var available: U128 := q.collateral - loan / price;
      var l := Loan(id, who, q.collateral, available, q.loan, Well);
      t := assets.MakeTransfer(cfg.collectionAsset, cfg.collectionAccount, who, loan);
      if t.Err? {
        assert false;
        return t;
      }
      loans := loans[id := l];
      loansByAccount := loansByAccount[who := IdsOf(loansByAccount, who) + [id]];
      totalLoan := totalLoan + q.loan;
      totalCollateral := totalCollateral + q.collateral;
      return Ok;
    }

    /** The rollback closure of repay, which runs before anything was subtracted. */
    method Revert(l: Loan)
      requires totalLoan + l.debt < U128_BOUND && totalCollateral + l.available < U128_BOUND
      modifies this`loans, this`loansByAccount, this`totalLoan, this`totalCollateral
      ensures loans == old(loans)[l.id := l]
      ensures loansByAccount == old(loansByAccount)[l.who := IdsOf(old(loansByAccount), l.who) + [l.id]]
      ensures totalLoan == old(totalLoan) + l.debt && totalCollateral == old(totalCollateral) + l.available
    {
      loans := loans[l.id := l];
      loansByAccount := loansByAccount[l.who := IdsOf(loansByAccount, l.who) + [l.id]];
      totalLoan := totalLoan + l.debt;
      totalCollateral := totalCollateral + l.available;
    }

    method RepayForLoan(who: AccountId, id: LoanId) returns (r: DispatchResult)
      requires Valid() && !RepayFaults(cfg, View(), who, id)
      modifies this`loans, this`loansByAccount, this`totalLoan, this`totalCollateral, assets
      ensures Valid() && (r, View()) == Repaying(cfg, old(View()), who, id)
    {
      ghost var w := View();
      if id !in loans { return Err(InvalidLoanId); }
      var l := loans[id];
      if l.who != who { return Err(NotLoanOwner); }
      if At(assets.freeBalance, (cfg.loanAsset, who)) < l.debt { return Err(NotEnoughToRepay); }
      if At(assets.freeBalance, (cfg.collateralAsset, cfg.pawnShop)) < l.available { return Err(ShopCollateralShort); }
      if id in liquidatingLoans { return Err(LoanInLiquidation); }
      LiveLoanFacts(w, id);
      r := SettleRepayment(l);
      RepayingKeeps(cfg, w, who, id);
      assert View() == Repaying(cfg, w, who, id).1;
    }

    /** What repay does when the shop cannot pay: the closure, then the debt is sent back. */
    method UndoRepayment(l: Loan)
      requires assets.Valid() && l.id in loans && loans[l.id] == l
      requires totalLoan + l.debt < U128_BOUND && totalCollateral + l.available < U128_BOUND
      requires Free(assets.View(), cfg.loanAsset, cfg.collectionAccount) >= l.debt
      modifies this`loans, this`loansByAccount, this`totalLoan, this`totalCollateral, assets
      ensures assets.Valid()
      ensures View() == old(View()).(
        book := Moved(old(assets.View()), cfg.loanAsset, cfg.collectionAccount, l.who, l.debt),
        byAccount := old(loansByAccount)[l.who := IdsOf(old(loansByAccount), l.who) + [l.id]],
        totalLoan := old(totalLoan) + l.debt,
        totalCollateral := old(totalCollateral) + l.available)
    {
      Revert(l);
      var back := assets.MakeTransfer(cfg.loanAsset, cfg.collectionAccount, l.who, l.debt);
      assert back.Ok? && loans == old(loans);
    }

    /** The payout of a repayment: the collateral and then the tables, or the way back. */
    method CloseLoan(l: Loan) returns (r: DispatchResult)
      requires assets.Valid() && l.id in loans && loans[l.id] == l && l.debt <= totalLoan &&
          l.original <= totalCollateral
      requires Free(assets.View(), cfg.loanAsset, cfg.collectionAccount) >= l.debt
      requires Free(assets.View(), cfg.collateralAsset, cfg.pawnShop) < l.original ==>
                 totalLoan + l.debt < U128_BOUND && totalCollateral + l.available < U128_BOUND
      modifies this`loans, this`loansByAccount, this`totalLoan, this`totalCollateral, assets
      ensures assets.Valid() && (r, View()) == Closing(cfg, old(View()), l)
    {
      r := assets.MakeTransfer(cfg.collateralAsset, cfg.pawnShop, l.who, l.original);
      if r.Err? {
        UndoRepayment(l);
        return r;
      }
      loans := loans - {l.id};
      totalLoan := totalLoan - l.debt;
      totalCollateral := totalCollateral - l.original;
    }

    /** The writing part of repay: off the owner's list, the debt in, then the payout. */
    method SettleRepayment(l: Loan) returns (r: DispatchResult)
      requires WellConfigured(cfg) && assets.Valid()
      requires l.id in loans && loans[l.id] == l && l.debt <= totalLoan && l.original <= totalCollateral
      requires Free(assets.View(), cfg.loanAsset, l.who) >= l.debt
      requires Free(assets.View(), cfg.collateralAsset, cfg.pawnShop) < l.original ==>
                 totalLoan + l.debt < U128_BOUND && totalCollateral + l.available < U128_BOUND
      modifies this`loans, this`loansByAccount, this`totalLoan, this`totalCollateral, assets
      ensures assets.Valid()
      ensures Free(PaidIn(cfg, old(View()), l).book, cfg.loanAsset, cfg.collectionAccount) >= l.debt
      ensures (r, View()) == Closing(cfg, PaidIn(cfg, old(View()), l), l)
    {
      RepaidBook(cfg, assets.View(), l);
      ghost var w := View();
      loansByAccount := loansByAccount[l.who := Without(IdsOf(loansByAccount, l.who), l.id)];
      var t := assets.MakeTransfer(cfg.loanAsset, l.who, cfg.collectionAccount, l.debt);
      if t.Err? {
        assert false;
        return t;
      }
      assert View() == PaidIn(cfg, w, l);
      r := CloseLoan(l);
    }

    method DrawFromLoan(who: AccountId, id: LoanId, amount: U128, price: U64) returns (r: DispatchResult)
      requires Valid() && !DrawFaults(cfg, View(), who, id, amount, price)
      modifies this`loans, this`totalLoan
      ensures Valid() && (r, View()) == Drawing(cfg, old(View()), who, id, amount, price)
    {
      ghost var w := View();
      if id !in loans { return Err(InvalidLoanId); }
      var l := loans[id];
      if l.who != who { return Err(NotLoanOwner); }
      var p := price % U32_BOUND;
      ProductFits(l.available * p, cfg.ltvLimit);
      var worth: U128 := l.available * p;
      var scaled: U128 := worth * cfg.ltvLimit;
      var credit := scaled / LTV_PREC / PRICE_PREC;
      if amount > credit { return Err(ShortOfCredit); }
      LiveLoanFacts(w, id);
      DrawLeavesCollateral(l.available, amount, p, cfg.ltvLimit);
      RecordDraw(id, amount, p);
      DrawingKeeps(cfg, w, who, id, amount, price);
      assert View() == Drawing(cfg, w, who, id, amount, price).1;
      return Ok;
    }

    /** Two writes to the loan and one to the total. */
    method RecordDraw(id: LoanId, amount: U128, p: U32)
      requires id in loans && p > 0 && amount / p <= loans[id].available
      requires loans[id].debt <= totalLoan && totalLoan + amount < U128_BOUND
      modifies this`loans, this`totalLoan
      ensures loans == old(loans)[id := old(loans)[id].(debt := old(loans)[id].debt + amount,
                                                         available := old(loans)[id].available - amount / p)]
      ensures totalLoan == old(totalLoan) + amount
    {
      var debt: U128 := loans[id].debt + amount;
      loans := loans[id := loans[id].(debt := debt)];
      var available: nat := loans[id].available - amount / p;
      loans := loans[id := loans[id].(available := available)];
      totalLoan := totalLoan + amount;
    }

    method AddLoanCollateral(who: AccountId, id: LoanId, amount: U128) returns (r: DispatchResult)
      requires Valid() && !AddFaults(cfg, View(), who, id, amount)
      modifies this`loans, this`totalCollateral, assets
      ensures Valid() && (r, View()) == AddingCollateral(cfg, old(View()), who, id, amount)
    {
      ghost var w := View();
      if id !in loans { return Err(InvalidLoanId); }
      var l := loans[id];
      if l.who != who { return Err(NotLoanOwner); }
      if At(assets.freeBalance, (cfg.collectionAsset, who)) < amount { return Err(InsufficientBalance); }
      LiveLoanFacts(w, id);
      CreditCollateral(l, amount);
      AddingKeeps(cfg, w, who, id, amount);
      assert View() == AddingCollateral(cfg, w, who, id, amount).1;
      return Ok;
    }

    /** The writing part of add_collateral. */
    method CreditCollateral(l: Loan, amount: U128)
      requires assets.Valid() && l.id in loans && loans[l.id] == l && l.available <= l.original <= totalCollateral
      requires Free(assets.View(), cfg.collectionAsset, l.who) >= amount && totalCollateral + amount < U128_BOUND
      modifies this`loans, this`totalCollateral, assets
      ensures assets.Valid() && View() == Credited(cfg, old(View()), l, amount)
    {
      var t := assets.MakeTransfer(cfg.collectionAsset, l.who, cfg.pawnShop, amount);
      assert t.Ok?;
      var original: U128 := loans[l.id].original + amount;
      var available: U128 := loans[l.id].available + amount;
      loans := loans[l.id := loans[l.id].(original := original, available := available)];
      totalCollateral := totalCollateral + amount;
    }

    // ---------- liquidation ----------

    /** The payouts of mark_liquidated with the compensations the code attempts when one fails. */
    method SettleLiquidation(l: Loan, caller: AccountId, auction: U128) returns (r: DispatchResult)
      requires assets.Valid() && Free(assets.View(), cfg.loanAsset, caller) >= auction >= l.debt
      requires l.original < U128_BOUND
      requires !PayoutFaults(cfg, assets.View(), l, caller, auction - l.debt)
      modifies assets
      ensures assets.Valid() && (r, assets.View()) == Payout(cfg, old(assets.View()), l, caller, auction)
    {
      var t := assets.MakeTransfer(cfg.loanAsset, caller, cfg.collectionAccount, l.debt);
      if t.Err? {
        assert false;
        return t;
      }
      var leftover: U128 := auction - l.debt;
      if leftover > 0 {
        var scaled: U128 := leftover * cfg.liquidationPenalty;
        var penalty: U128 := scaled / 100;
        t := assets.MakeTransfer(cfg.loanAsset, cfg.collectionAccount, cfg.profitPool, penalty);
        if t.Err? {
          var back := assets.MakeTransfer(cfg.loanAsset, cfg.pawnShop, caller, l.debt);
          if back.Err? { return back; }
          return t;
        }
        t := assets.MakeTransfer(cfg.loanAsset, cfg.collectionAccount, l.who, leftover - penalty);
        if t.Err? {
          var back := assets.MakeTransfer(cfg.loanAsset, cfg.profitPool, caller, penalty);
          if back.Err? { return back; }
          back := assets.MakeTransfer(cfg.collateralAsset, cfg.pawnShop, caller, l.original);
          if back.Err? { return back; }
          return t;
        }
      }
      return Ok;
    }

    method MarkLoanLiquidated(caller: AccountId, id: LoanId, auction: U128) returns (r: DispatchResult)
      requires Valid() && !LiquidateFaults(cfg, View(), caller, id, auction)
      modifies this`loans, this`loansByAccount, this`liquidatingLoans, assets
      ensures Valid() && (r, View()) == MarkingLiquidated(cfg, old(View()), caller, id, auction)
    {
      ghost var w := View();
      if caller != cfg.liquidationAccount { return Err(LiquidationAccountOnly); }
      if id !in loans { return Err(InvalidLoanId); }
      if id !in liquidatingLoans { return Err(NotInLiquidation); }
      var l := loans[id];
      if At(assets.freeBalance, (cfg.loanAsset, caller)) < auction { return Err(NotEnoughToLiquidate); }
      if auction < l.debt { return Err(NotEnoughToLiquidate); }
      LiveLoanFacts(w, id);
      r := SettleLiquidation(l, caller, auction);
      LiquidatedKeeps(cfg, w, caller, id, auction);
      if r.Err? {
        assert View() == MarkingLiquidated(cfg, w, caller, id, auction).1;
        return r;
      }
      loans := loans - {id};
      loansByAccount := loansByAccount[l.who := Without(IdsOf(loansByAccount, l.who), id)];
      liquidatingLoans := Without(liquidatingLoans, id);
      assert View() == MarkingLiquidated(cfg, w, caller, id, auction).1;
      return Ok;
    }

    // ---------- each block ----------

    method CheckLoanHealth(l: Loan, price: U64) returns (h: LoanHealth)
      requires LoanScannable(l, price)
      ensures h == Health(cfg, l, price)
    {
      var scaled: U128 := l.debt * PRICE_PREC * LTV_PREC;
      var worth: U128 := l.available * price;
      var ltv: U64 := scaled / worth;
      if ltv >= cfg.liquidationThreshold { return Liquidating(ltv); }
      if ltv >= cfg.warningThreshold { return Warning(ltv); }
      return Well;
    }

    /** order is the enumeration order of the loan table, any order at all. */
    method OnEachBlock(price: U64, order: seq<LoanId>)
      requires Valid() && price > 0 && Enumerates(order, loans.Keys) && !ScanFaults(View(), price)
      requires forall id :: id in loans ==> loans[id].available * price != 0
      modifies this`loans, this`liquidatingLoans
      ensures Valid() && View() == Scanned(cfg, old(View()), price, order)
    {
      ghost var w := View();
      ScannedKeeps(cfg, w, price, order);
      ScanLoans(price, order);
      ScanEnds(cfg, w.loans, price, order);
    }

    method ScanLoans(price: U64, order: seq<LoanId>)
      requires NoDup(order) && forall id :: id in order ==> id in loans
      requires forall id :: id in loans ==> loans[id].available * price != 0
      requires forall id :: id in loans ==> (id in liquidatingLoans <==> loans[id].status.Liquidating?)
      requires forall id :: id in loans && !loans[id].status.Liquidating? ==> LoanScannable(loans[id], price)
      modifies this`loans, this`liquidatingLoans
      ensures loans == PartlyScanned(cfg, old(loans), price, order)
      ensures liquidatingLoans == old(liquidatingLoans) + NewIn(cfg, old(loans), price, order)
    {
      ghost var start := loans;
      ScanBegins(cfg, start, price);
      assert liquidatingLoans + [] == liquidatingLoans;
      assert order[..0] == [];
      for i := 0 to |order|
        invariant forall j :: j in order[..i] ==> j in start
        invariant loans == PartlyScanned(cfg, start, price, order[..i])
        invariant liquidatingLoans == old(liquidatingLoans) + NewIn(cfg, start, price, order[..i])
      {
        var id := order[i];
        assert id in order && order[..i + 1] == order[..i] + [id] && id !in order[..i];
        ScanAdvances(cfg, start, price, order[..i], id);
        NewInSnoc(cfg, start, price, order[..i], id);
        NewInVisited(cfg, start, price, order[..i], id);
        ghost var before := liquidatingLoans;
        ScanLoan(id, price);
        assert liquidatingLoans == before + if NewlyLiquidating(cfg, start[id], price) then [id] else [];
      }
      assert order[..|order|] == order;
    }

    /** The body of the scan loop for one loan. */
    method ScanLoan(id: LoanId, price: U64)
      requires id in loans && (id in liquidatingLoans <==> loans[id].status.Liquidating?)
      requires loans[id].available * price != 0
      requires !loans[id].status.Liquidating? ==> LoanScannable(loans[id], price)
      modifies this`loans, this`liquidatingLoans
      ensures loans == old(loans)[id := Rescored(cfg, old(loans)[id], price)]
      ensures liquidatingLoans == old(liquidatingLoans) + if NewlyLiquidating(cfg, old(loans)[id], price)
          then [id] else []
    {
      var l := loans[id];
      assert loans == loans[id := l];
      if id in liquidatingLoans { return; }
      var h := CheckLoanHealth(l, price);
      match h {
        case Well =>
        case Warning(ltv) =>
          if l.status != Warning(ltv) {
            loans := loans[id := loans[id].(status := Warning(ltv))];
          }
        case Liquidating(ltv) => LiquidateLoan(id, ltv);
      }
    }

    method LiquidateLoan(id: LoanId, ltv: nat)
      requires id in loans
      modifies this`loans, this`liquidatingLoans
      ensures loans == old(loans)[id := old(loans)[id].(status := Liquidating(ltv))]
      ensures liquidatingLoans == old(liquidatingLoans) + [id]
    {
      loans := loans[id := loans[id].(status := Liquidating(ltv))];
      liquidatingLoans := liquidatingLoans + [id];
    }

    /** The loop of the interest calculation, for whatever interest was generated. */
    method ChargeInterest(order: seq<LoanId>, interest: U128, total: U128, price: U64)
      requires Valid() && forall id :: id in order ==> id in loans
      requires !ChargeFaults(cfg, View(), order, interest, total, price)
      modifies this`loans, this`totalLoan, this`totalDtoken, assets
      ensures Valid() && View() == Charged(cfg, old(View()), order, interest, total, price)
    {
      ghost var w := View();
      ChargedKeeps(cfg, w, order, interest, total, price);
      assert order[0..] == order;
      for i := 0 to |order|
        invariant Valid() && forall id :: id in order[i..] ==> id in loans
        invariant !ChargeFaults(cfg, View(), order[i..], interest, total, price)
        invariant Charged(cfg, View(), order[i..], interest, total, price) ==
            Charged(cfg, w, order, interest, total, price)
      {
        assert order[i..][0] == order[i] && order[i..][1..] == order[i + 1..];
        ChargeOneKeeps(cfg, View(), order[i], interest, total, price);
        ChargeLoan(order[i], interest, total, price);
      }
    }

    /** The body of the interest loop: both failures are dropped, the counter grows regardless. */
    method ChargeLoan(id: LoanId, interest: U128, total: U128, price: U64)
      requires Valid() && id in loans && !ChargeOneFaults(cfg, View(), id, interest, total, price)
      modifies this`loans, this`totalLoan, this`totalDtoken, assets
      ensures Valid() && View() == ChargeOne(cfg, old(View()), id, interest, total, price)
    {
      ghost var before := View();
      var l := loans[id];
      var scaled: U128 := interest * l.debt;
      var divisor: U128 := total * PREC;
      var amount: U128 := ShareFits(scaled, divisor);
      var dropped := DrawFromLoan(l.who, id, amount, price);
      dropped := assets.MakeTransfer(cfg.collectionAsset, l.who, cfg.collectionAccount, amount);
      totalDtoken := totalDtoken + amount;
      ChargeOneKeeps(cfg, before, id, interest, total, price);
      assert View() == ChargeOne(cfg, before, id, interest, total, price);
    }

    static function ShareFits(scaled: U128, divisor: U128): (amount: U128)
      requires divisor > 0
      ensures amount == scaled / divisor
    {
      QuotientAtMost(scaled, divisor);
      scaled / divisor
    }

    /** BonusTime is overwritten first, so the elapsed time read back is always 0. */
    method CalculateLoanInterestRate(price: U64, order: seq<LoanId>, now: nat)
      requires Valid() && (forall id :: id in order ==> id in loans) && !AccrueFaults(cfg, View(), price, order)
      modifies this, assets
      ensures Valid() && View() == Accrued(cfg, old(View()), price, order, now)
    {
      ghost var w := View();
      var total := totalLoan;
      var cash := At(assets.freeBalance, (cfg.collectionAsset, cfg.collectionAccount));
      var deposit: U128 := cash + total;
      bonusTime := now;
      ClocksDoNotMatter(w, View());
      if deposit + total != 0 {
        ChargedTimeless(cfg, w, order, 0, total, price, now);
        var scaled: U128 := total * PREC;
        var sum: U128 := deposit + total;
        var x := scaled / sum;
        assert x == Utilisation(cash, total);
        var rate := LinearRate(x);
        var elapsed := now - bonusTime;
        assert elapsed == 0;
        var interest: U128 := 0;
        assert interest == InterestFor(elapsed, total, rate) by { NoTimeNoInterest(total, rate); }
        ChargeInterest(order, interest, total, price);
        ghost var charged := View();
        loanInterestRateCurrent := rate;
        savingInterestRate := SavingRateFor(interest, deposit);
        ClocksDoNotMatter(charged, View());
      }
    }

    method OnInitialize(price: U64, order: seq<LoanId>, now: nat)
      requires Valid() && price > 0 && Enumerates(order, loans.Keys) && !BlockFaults(cfg, View(), price, order)
      modifies this, assets
      ensures Valid() && View() == Block(cfg, old(View()), price, order, now)
    {
      ScanDefined(View(), price);
      OnEachBlock(price, order);
      CalculateLoanInterestRate(price, order, now);
    }
  }

  // ---------- lemmas for the methods ----------

  lemma LiveLoanFacts(w: World, id: LoanId)
    requires Consistent(w) && id in w.loans
    ensures w.loans[id].id == id && 1 <= w.loans[id].available <= w.loans[id].original <= w.totalCollateral
    ensures w.loans[id].debt <= w.totalLoan
  {
    LoanWithinTotals(w, id);
  }

  lemma ClocksDoNotMatter(w: World, n: World)
    requires Consistent(w) && n == w.(bonusTime := n.bonusTime, loanRate := n.loanRate, savingRate := n.savingRate)
    ensures Consistent(n)
  {
  }

  lemma ProductFits(x: nat, y: nat)
    requires y > 0
    ensures x <= x * y
  {
  }

  lemma PriceTimesLimitFits(price: U64, limit: nat)
    requires limit < PREC
    ensures price * limit < U128_BOUND
  {
    MulMonotone(price, limit, PREC);
  }

  /** An application that got through every check, and does not fault, has room in the totals. */
  lemma AdmittedFits(c: Config, w: World, who: AccountId, collateral: nat, loan: nat, price: nat)
    requires WellConfigured(c) && price > 0 && ApplyChecked(c, w, loan) && collateral >= c.minimumCollateral
    requires !ApplyFaults(c, w, who, collateral, loan, price) && Quote(collateral, loan, price, c.ltvLimit).Success?
    ensures var q := Quote(collateral, loan, price, c.ltvLimit).value;
            && q.collateral == collateral
            && (Free(w.book, c.collateralAsset, who) >= q.collateral ==>
                  w.nextLoanId + 1 < U64_BOUND && w.totalLoan + q.loan < U128_BOUND
                  && w.totalCollateral + q.collateral < U128_BOUND)
  {
  }

  lemma NoTimeNoInterest(total: nat, rate: nat)
    ensures InterestFor(0, total, rate) == 0
  {
    assert 0 * total * rate == 0;
  }

  /** An unvisited loan is on the liquidating list only if it was there before the scan. */
  lemma NewInVisited(c: Config, loans: map<LoanId, Loan>, price: nat, done: seq<LoanId>, id: LoanId)
    requires forall i :: i in done ==> i in loans && loans[i].available * price != 0
    requires id !in done
    ensures id !in NewIn(c, loans, price, done)
  {
    if done != [] {
      assert forall i :: i in done[1..] ==> i in done;
      assert done[0] in done;
      NewInVisited(c, loans, price, done[1..], id);
    }
  }

  lemma ChargeOneTimeless(c: Config, w: World, id: LoanId, interest: nat, total: nat, price: nat, now: nat)
    requires WellConfigured(c) && LoansSound(w.loans, w.nextLoanId) && id in w.loans
    requires !ChargeOneFaults(c, w, id, interest, total, price)
    ensures !ChargeOneFaults(c, w.(bonusTime := now), id, interest, total, price)
    ensures ChargeOne(c, w.(bonusTime := now), id, interest, total, price)
         == ChargeOne(c, w, id, interest, total, price).(bonusTime := now)
  {
  }

  /** The interest loop neither reads nor writes the time. */
  lemma {:induction false} ChargedTimeless(c: Config, w: World, order: seq<LoanId>, interest: nat, total: nat,
      price: nat, now: nat)
    requires WellConfigured(c) && LoansSound(w.loans, w.nextLoanId) && forall id :: id in order ==> id in w.loans
    requires !ChargeFaults(c, w, order, interest, total, price)
    ensures !ChargeFaults(c, w.(bonusTime := now), order, interest, total, price)
    ensures Charged(c, w.(bonusTime := now), order, interest, total, price)
         == Charged(c, w, order, interest, total, price).(bonusTime := now)
    decreases |order|
  {
    if order != [] {
      ChargeOneKeeps(c, w, order[0], interest, total, price);
      var m := ChargeOne(c, w, order[0], interest, total, price);
      ChargeOneTimeless(c, w, order[0], interest, total, price, now);
      ChargedTimeless(c, m, order[1..], interest, total, price, now);
    }
  }
}
