/** What a block does by itself: the liquidation scan and the interest loop. */
module LendingBlock {
  import opened Base
  import opened Sums
  import opened Ledger
  import opened LoanMath
  import opened Lending
  import opened LendingInvariant

  // ---------- the scan as a pointwise map ----------

  /** The liquidating list grows by exactly the loans at or above the threshold; nothing else
      about a loan changes than a status moving up. */
  lemma ScanIsPointwise(c: Config, w: World, price: nat, order: seq<LoanId>)
    requires Consistent(w) && price > 0 && Enumerates(order, w.loans.Keys)
    requires forall id :: id in w.loans ==> w.loans[id].available * price != 0
    ensures var n := Scanned(c, w, price, order);
            && n.loans.Keys == w.loans.Keys
            && (forall id :: id in n.liquidating <==>
                  id in w.liquidating ||
                  (id in w.loans && Ltv(w.loans[id].available, w.loans[id].debt, price) >= c.liquidationThreshold))
            && (forall id :: id in w.loans ==> n.loans[id].(status := Well) == w.loans[id].(status := Well))
            && (forall id :: id in w.loans ==> Rank(w.loans[id].status) <= Rank(n.loans[id].status))
  {
    NewInExact(c, w.loans, price, order);
  }

  function Rank(s: LoanHealth): nat {
    match s
    case Well => 0
    case Warning(_) => 1
    case Liquidating(_) => 2
  }

  /** Scanning again at the same price, in any order, changes nothing. */
  lemma ScanIdempotent(c: Config, w: World, price: nat, order: seq<LoanId>, again: seq<LoanId>)
    requires Consistent(w) && price > 0
    requires Enumerates(order, w.loans.Keys) && Enumerates(again, w.loans.Keys)
    requires forall id :: id in w.loans ==> w.loans[id].available * price != 0
    ensures var n := Scanned(c, w, price, order);
            && n.loans.Keys == w.loans.Keys
            && (forall id :: id in n.loans ==> n.loans[id].available * price != 0)
            && Scanned(c, n, price, again) == n
  {
    var n := Scanned(c, w, price, order);
    assert n.loans.Keys == w.loans.Keys;
    RescanTwice(c, w.loans, price);
    NothingNew(c, n.loans, price, again);
    assert n.liquidating + [] == n.liquidating;
  }

  lemma RescanTwice(c: Config, loans: map<LoanId, Loan>, price: nat)
    requires forall id :: id in loans ==> loans[id].available * price != 0
    ensures var n := Rescan(c, loans, price);
            && (forall id :: id in n ==> n[id].available * price != 0 && !NewlyLiquidating(c, n[id], price))
            && Rescan(c, n, price) == n
  {
  }

  lemma {:induction false} NothingNew(c: Config, loans: map<LoanId, Loan>, price: nat, order: seq<LoanId>)
    requires forall id :: id in order ==> id in loans && loans[id].available * price != 0
    requires forall id :: id in order ==> !NewlyLiquidating(c, loans[id], price)
    ensures NewIn(c, loans, price, order) == []
  {
    if order != [] { NothingNew(c, loans, price, order[1..]); }
  }

  /** A scan at a lower price liquidates everything the scan at the higher price does. */
  lemma LowerPriceLiquidatesMore(c: Config, w: World, low: nat, high: nat, order: seq<LoanId>)
    requires Consistent(w) && 0 < low <= high && Enumerates(order, w.loans.Keys)
    ensures forall id :: id in w.loans ==> w.loans[id].available * low != 0 && w.loans[id].available * high != 0
    ensures forall id :: id in Scanned(c, w, high, order).liquidating ==> id in Scanned(c, w, low, order).liquidating
  {
    ScanDefined(w, low);
    ScanDefined(w, high);
    ScanIsPointwise(c, w, low, order);
    ScanIsPointwise(c, w, high, order);
    forall id | id in w.loans && Ltv(w.loans[id].available, w.loans[id].debt, high) >= c.liquidationThreshold
      ensures Ltv(w.loans[id].available, w.loans[id].debt, low) >= c.liquidationThreshold
    {
      LtvFallsWithPrice(w.loans[id].available, w.loans[id].debt, low, high);
    }
  }

  // ---------- the interest loop, for any interest ----------

  function DebtOf(loans: map<LoanId, Loan>, order: seq<LoanId>): nat
    requires forall id :: id in order ==> id in loans
  {
    if order == [] then 0 else loans[order[0]].debt + DebtOf(loans, order[1..])
  }

  function SharesOf(loans: map<LoanId, Loan>, order: seq<LoanId>, interest: nat, total: nat): nat
    requires total > 0 && forall id :: id in order ==> id in loans
  {
    if order == [] then 0
    else Share(interest, loans[order[0]].debt, total) + SharesOf(loans, order[1..], interest, total)
  }

  function DrawnOf(c: Config, loans: map<LoanId, Loan>, order: seq<LoanId>, interest: nat, total: nat, price: nat): nat
    requires total > 0 && forall id :: id in order ==> id in loans
  {
    if order == [] then 0
    else DrawnShare(c, loans[order[0]], interest, total, price) + DrawnOf(c, loans, order[1..], interest, total, price)
  }

  lemma {:induction false} OtherLoansCount(c: Config, loans: map<LoanId, Loan>, next: map<LoanId, Loan>,
      order: seq<LoanId>, interest: nat, total: nat, price: nat)
    requires total > 0 && forall id :: id in order ==> id in loans && id in next && next[id] == loans[id]
    ensures SharesOf(next, order, interest, total) == SharesOf(loans, order, interest, total)
    ensures DrawnOf(c, next, order, interest, total, price) == DrawnOf(c, loans, order, interest, total, price)
  {
    if order != [] {
      assert order[0] in order && forall id :: id in order[1..] ==> id in order;
      OtherLoansCount(c, loans, next, order[1..], interest, total, price);
    }
  }

  /** The saving counter grows by every share; the loan total only by the draws that succeed.
      Both are sums over the loans as they were when the loop began. */
  lemma {:induction false} ChargedTotals(c: Config, w: World, order: seq<LoanId>, interest: nat, total: nat, price: nat)
    requires WellConfigured(c) && LoansSound(w.loans, w.nextLoanId) && total > 0
    requires NoDup(order) && forall id :: id in order ==> id in w.loans
    requires !ChargeFaults(c, w, order, interest, total, price)
    ensures var n := Charged(c, w, order, interest, total, price);
            && n.totalDtoken == w.totalDtoken + SharesOf(w.loans, order, interest, total)
            && n.totalLoan == w.totalLoan + DrawnOf(c, w.loans, order, interest, total, price)
            && n.marketDtoken == w.marketDtoken && n.totalCollateral == w.totalCollateral
    decreases |order|
  {
    if order != [] {
      ChargeOneKeeps(c, w, order[0], interest, total, price);
      var m := ChargeOne(c, w, order[0], interest, total, price);
      assert order[0] !in order[1..] && forall id :: id in order[1..] ==> id in order;
      ChargeOneTotals(c, w, order[0], interest, total, price);
      ChargedTotals(c, m, order[1..], interest, total, price);
      OtherLoansCount(c, w.loans, m.loans, order[1..], interest, total, price);
    }
  }

  lemma ChargeOneTotals(c: Config, w: World, id: LoanId, interest: nat, total: nat, price: nat)
    requires WellConfigured(c) && LoansSound(w.loans, w.nextLoanId) && id in w.loans && total > 0
    requires !ChargeOneFaults(c, w, id, interest, total, price)
    ensures var n := ChargeOne(c, w, id, interest, total, price);
            && n.totalDtoken == w.totalDtoken + Share(interest, w.loans[id].debt, total)
            && n.totalLoan == w.totalLoan + DrawnShare(c, w.loans[id], interest, total, price)
            && n.marketDtoken == w.marketDtoken && n.totalCollateral == w.totalCollateral
            && (forall j :: j in w.loans && j != id ==> j in n.loans && n.loans[j] == w.loans[j])
  {
  }

  /** Shares never exceed the interest, and fall short of the exact pro-rata sum by less than
      one unit a loan. All sides are scaled by total * 10^8 to stay in whole numbers. */
  lemma {:induction false} SharesBound(loans: map<LoanId, Loan>, order: seq<LoanId>, interest: nat, total: nat)
    requires total > 0 && forall id :: id in order ==> id in loans
    ensures total * PREC * SharesOf(loans, order, interest, total) <= interest * DebtOf(loans, order)
    ensures interest * DebtOf(loans, order) <= total * PREC * (SharesOf(loans, order, interest, total) + |order|)
    ensures order != [] ==>
              interest * DebtOf(loans, order) < total * PREC * (SharesOf(loans, order, interest, total) + |order|)
  {
    if order != [] {
      SharesBound(loans, order[1..], interest, total);
      var k, d, rest := total * PREC, loans[order[0]].debt, DebtOf(loans, order[1..]);
      var s, t := Share(interest, d, total), SharesOf(loans, order[1..], interest, total);
      QuotientBounds(interest * d, k);
      Distribute(interest, d, rest);
      Distribute(k, s, t);
      Distribute(k, s + 1, t + |order| - 1);
      Distribute(k, s, 1);
    }
  }

  lemma Distribute(k: nat, x: nat, y: nat)
    ensures k * (x + y) == k * x + k * y
  {
  }

  /** Summing debts in enumeration order gives the sum over the table. */
  lemma {:induction false} OrderedDebts(loans: map<LoanId, Loan>, order: seq<LoanId>)
    requires Enumerates(order, loans.Keys)
    ensures DebtOf(loans, order) == Sum(Debts(loans))
    decreases |order|
  {
    if order == [] {
      assert Debts(loans) == map[];
    } else {
      var id := order[0];
      assert id in order && id !in order[1..];
      var rest := loans - {id};
      assert forall j :: j in order <==> j == id || j in order[1..];
      OrderedDebts(rest, order[1..]);
      SameDebts(loans, rest, order[1..]);
      DropLoan(loans, id);
    }
  }

  lemma {:induction false} SameDebts(loans: map<LoanId, Loan>, rest: map<LoanId, Loan>, order: seq<LoanId>)
    requires forall id :: id in order ==> id in loans && id in rest && rest[id] == loans[id]
    ensures DebtOf(loans, order) == DebtOf(rest, order)
  {
    if order != [] {
      assert order[0] in order && forall id :: id in order[1..] ==> id in order;
      SameDebts(loans, rest, order[1..]);
    }
  }

  /** For any interest: the amounts charged add up to at most interest / 10^8, because the
      recorded total covers the live debts; the shortfall against the pro-rata total is less
      than one unit a loan; the counters grow by exactly what was charged and drawn. */
  lemma InterestIsBounded(c: Config, w: World, order: seq<LoanId>, interest: nat, price: nat)
    requires WellConfigured(c) && Consistent(w) && w.totalLoan > 0 && Enumerates(order, w.loans.Keys)
    requires !ChargeFaults(c, w, order, interest, w.totalLoan, price)
    ensures var n, shares := Charged(c, w, order, interest, w.totalLoan, price), SharesOf(w.loans, order, interest,
        w.totalLoan);
            && PREC * shares <= interest
            && (w.loans != map[] ==> interest * Sum(Debts(w.loans)) < w.totalLoan * PREC * (shares + |order|))
            && n.totalDtoken == w.totalDtoken + shares
            && n.totalLoan == w.totalLoan + DrawnOf(c, w.loans, order, interest, w.totalLoan, price)
            && n.totalLoan <= w.totalLoan + shares
  {
    ChargedTotals(c, w, order, interest, w.totalLoan, price);
    SharesWithinInterest(w.loans, order, interest, w.totalLoan);
    DrawnAtMostShares(c, w.loans, order, interest, w.totalLoan, price);
  }

  lemma SharesWithinInterest(loans: map<LoanId, Loan>, order: seq<LoanId>, interest: nat, total: nat)
    requires total > 0 && Enumerates(order, loans.Keys) && Sum(Debts(loans)) <= total
    ensures PREC * SharesOf(loans, order, interest, total) <= interest
    ensures loans != map[] ==>
              interest * Sum(Debts(loans)) < total * PREC * (SharesOf(loans, order, interest, total) + |order|)
  {
    var shares, owed := SharesOf(loans, order, interest, total), Sum(Debts(loans));
    SharesBound(loans, order, interest, total);
    OrderedDebts(loans, order);
    MulMonotone(interest, owed, total);
    Reassociate(total, PREC, shares);
    CancelFactor(total, PREC * shares, interest);
    if order == [] {
      assert loans.Keys == {};
    }
  }

  lemma Reassociate(x: nat, y: nat, z: nat)
    ensures x * y * z == x * (y * z)
  {
  }

  lemma CancelFactor(k: nat, x: nat, y: nat)
    requires k > 0 && k * x <= y * k
    ensures x <= y
  {
    if x > y { MulMonotone(k, y + 1, x); }
  }

  lemma {:induction false} DrawnAtMostShares(c: Config, loans: map<LoanId, Loan>, order: seq<LoanId>,
      interest: nat, total: nat, price: nat)
    requires total > 0 && forall id :: id in order ==> id in loans
    ensures DrawnOf(c, loans, order, interest, total, price) <= SharesOf(loans, order, interest, total)
  {
    if order != [] { DrawnAtMostShares(c, loans, order[1..], interest, total, price); }
  }

  // ---------- on_initialize ----------

  const SEC_PER_DAY: nat := 86400
  const DAYS_PER_YEAR: nat := 365

  function InterestFor(elapsed: nat, total: nat, rate: nat): nat {
    elapsed * total * rate / SEC_PER_DAY / DAYS_PER_YEAR
  }

  function SavingRateFor(interest: nat, deposit: nat): nat
    requires deposit % U32_BOUND != 0
  {
    interest / (deposit % U32_BOUND) * DAYS_PER_YEAR * SEC_PER_DAY * PREC
  }

  predicate AccrueFaults(c: Config, w: World, price: nat, order: seq<LoanId>)
    requires WellConfigured(c) && LoansSound(w.loans, w.nextLoanId) && forall id :: id in order ==> id in w.loans
  {
    var f, l := Cash(c, w.book), w.totalLoan;
    || f + l >= U128_BOUND
    || (f + 2 * l > 0 &&
        (|| f + 2 * l >= U128_BOUND || l * PREC >= U128_BOUND
         || ChargeFaults(c, w, order, 0, l, price)
         || (f + l) % U32_BOUND == 0))
  }

  /** calculate_loan_interest_rate. BonusTime is written before it is read, so no time has
      passed and the interest to distribute is 0 in every block. */
  function Accrued(c: Config, w: World, price: nat, order: seq<LoanId>, now: nat): World
    requires WellConfigured(c) && LoansSound(w.loans, w.nextLoanId) && forall id :: id in order ==> id in w.loans
    requires !AccrueFaults(c, w, price, order)
  {
    var f, l := Cash(c, w.book), w.totalLoan;
    if f + 2 * l == 0 then w.(bonusTime := now)
    else Charged(c, w, order, 0, l, price).(bonusTime := now, loanRate := LoanRate(f, l), savingRate := 0)
  }

  predicate BlockFaults(c: Config, w: World, price: nat, order: seq<LoanId>)
    requires WellConfigured(c) && Consistent(w) && price > 0 && Enumerates(order, w.loans.Keys)
  {
    ScanDefined(w, price);
    ScannedKeeps(c, w, price, order);
    ScanFaults(w, price) || AccrueFaults(c, Scanned(c, w, price, order), price, order)
  }

  function Block(c: Config, w: World, price: nat, order: seq<LoanId>, now: nat): World
    requires WellConfigured(c) && Consistent(w) && price > 0 && Enumerates(order, w.loans.Keys)
    requires !BlockFaults(c, w, price, order)
  {
    ScanDefined(w, price);
    ScannedKeeps(c, w, price, order);
    Accrued(c, Scanned(c, w, price, order), price, order, now)
  }

  /** Charging no interest leaves every loan and counter as it was. */
  lemma {:induction false} ChargingNothing(c: Config, w: World, order: seq<LoanId>, total: nat, price: nat)
    requires WellConfigured(c) && LoansSound(w.loans, w.nextLoanId) && forall id :: id in order ==> id in w.loans
    requires !ChargeFaults(c, w, order, 0, total, price)
    ensures Charged(c, w, order, 0, total, price) == w.(book := Charged(c, w, order, 0, total, price).book)
    ensures forall a: AssetId, who: AccountId ::
              Free(Charged(c, w, order, 0, total, price).book, a, who) == Free(w.book, a, who)
    decreases |order|
  {
    if order != [] {
      var id := order[0];
      ChargeOneKeeps(c, w, id, 0, total, price);
      ChargingOneNothing(c, w, id, total, price);
      ChargingNothing(c, ChargeOne(c, w, id, 0, total, price), order[1..], total, price);
    }
  }

  lemma ChargingOneNothing(c: Config, w: World, id: LoanId, total: nat, price: nat)
    requires WellConfigured(c) && LoansSound(w.loans, w.nextLoanId) && id in w.loans
    requires !ChargeOneFaults(c, w, id, 0, total, price)
    ensures ChargeOne(c, w, id, 0, total, price) == w.(book := ChargeOne(c, w, id, 0, total, price).book)
    ensures forall a: AssetId, who: AccountId ::
              Free(ChargeOne(c, w, id, 0, total, price).book, a, who) == Free(w.book, a, who)
  {
    var l := w.loans[id];
    assert 0 * l.debt == 0 && Share(0, l.debt, total) == 0;
    assert w.loans[id := l] == w.loans;
  }

  /** With nothing to charge, the interest loop faults exactly when some loan is live and either
      the recorded total is 0 or too large, the price vanishes in 32 bits, or a credit overflows. */
  lemma {:induction false} ChargeNothingFaultsIff(c: Config, w: World, order: seq<LoanId>, total: nat, price: nat)
    requires WellConfigured(c) && LoansSound(w.loans, w.nextLoanId) && forall id :: id in order ==> id in w.loans
    requires w.totalLoan < U128_BOUND && w.totalDtoken < U128_BOUND
    ensures ChargeFaults(c, w, order, 0, total, price) <==>
            exists id :: id in order &&
              (total == 0 || total * PREC >= U128_BOUND || price % U32_BOUND == 0
               || w.loans[id].available * (price % U32_BOUND) * c.ltvLimit >= U128_BOUND)
    decreases |order|
  {
    if order != [] {
      var id := order[0];
      assert id in order && forall j :: j in order <==> j == id || j in order[1..];
      if total > 0 {
        assert 0 * w.loans[id].debt == 0 && Share(0, w.loans[id].debt, total) == 0;
      }
      if !ChargeOneFaults(c, w, id, 0, total, price) {
        ChargeOneKeeps(c, w, id, 0, total, price);
        ChargingOneNothing(c, w, id, total, price);
        ChargeNothingFaultsIff(c, ChargeOne(c, w, id, 0, total, price), order[1..], total, price);
      }
    }
  }

  /** The effect of a whole block: statuses and the liquidating list from the scan, the rate,
      the time; every debt, total, dtoken counter and balance is unchanged. */
  lemma BlockEffect(c: Config, w: World, price: nat, order: seq<LoanId>, now: nat)
    requires WellConfigured(c) && Consistent(w) && price > 0 && Enumerates(order, w.loans.Keys)
    requires !BlockFaults(c, w, price, order)
    ensures forall id :: id in w.loans ==> w.loans[id].available * price != 0
    ensures var n, s := Block(c, w, price, order, now), Scanned(c, w, price, order);
            && n.loans == s.loans && n.liquidating == s.liquidating && n.byAccount == w.byAccount
            && n.totalLoan == w.totalLoan && n.totalCollateral == w.totalCollateral && n.nextLoanId == w.nextLoanId
            && n.marketDtoken == w.marketDtoken && n.totalDtoken == w.totalDtoken && n.userDtoken == w.userDtoken
            && (forall a: AssetId, who: AccountId :: Free(n.book, a, who) == Free(w.book, a, who))
            && n.book.issuance == w.book.issuance
            && Consistent(n)
  {
    ScanDefined(w, price);
    ScannedKeeps(c, w, price, order);
    var s := Scanned(c, w, price, order);
    if Cash(c, s.book) + 2 * s.totalLoan > 0 {
      ChargingNothing(c, s, order, s.totalLoan, price);
      ChargedKeeps(c, s, order, 0, s.totalLoan, price);
    }
  }
}
