/** The fixed-point arithmetic of deposit-loan: loan-to-value, quotes, credit and rates. */
module LoanMath {
  import opened Base

  /** LTV_PREC * PRICE_PREC: what an LTV of 100% looks like. */
  const PREC: nat := 1_0000_0000
  const LTV_PREC: nat := 1_0000
  const PRICE_PREC: nat := 1_0000

  datatype CollateralLoan = CollateralLoan(collateral: nat, loan: nat)

  function Ltv(collateral: nat, debt: nat, price: nat): nat
    requires collateral * price != 0
  {
    debt * PREC / (collateral * price)
  }

  /** get_collateral_loan: a missing side is quoted, two given sides are checked. */
  function Quote(collateral: nat, loan: nat, price: nat, limit: nat): Result<CollateralLoan>
    requires price > 0 && limit > 0
  {
    if collateral == 0 && loan == 0 then Failure(InvalidCollateralLoanAmounts)
    else if collateral == 0 then
      NonZero(price, limit);
      Success(CollateralLoan(loan * PREC / (price * limit), loan))
    else if loan == 0 then Success(CollateralLoan(collateral, collateral * price * limit / PREC))
    else
      NonZero(collateral, price);
      if Ltv(collateral, loan, price) >= limit then Failure(OverLTVLimit)
      else Success(CollateralLoan(collateral, loan))
  }

  /** What a draw may take: nested floors, as the code divides twice. */
  function Credit(available: nat, price: nat, limit: nat): nat {
    available * price * limit / LTV_PREC / PRICE_PREC
  }

  // ---------- division ----------

  lemma NonZero(x: nat, y: nat)
    requires x > 0 && y > 0
    ensures x * y > 0
  {
  }

  lemma QuotientBounds(a: nat, b: nat)
    requires b > 0
    ensures b * (a / b) <= a < b * (a / b) + b
  {
  }

  lemma Swap(x: nat, y: nat)
    ensures x * y == y * x
  {
  }

  lemma MulMonotone(k: nat, x: nat, y: nat)
    requires x <= y
    ensures k * x <= k * y
  {
  }

  /** A floor reaches c exactly when the dividend reaches b * c. */
  lemma FloorAtLeast(a: nat, b: nat, c: nat)
    requires b > 0
    ensures a / b >= c <==> a >= b * c
  {
    QuotientBounds(a, b);
    if a / b >= c {
      MulMonotone(b, c, a / b);
    } else {
      MulMonotone(b, a / b + 1, c);
      assert b * (a / b + 1) == b * (a / b) + b;
    }
  }

  lemma FloorMonotone(a: nat, c: nat, b: nat)
    requires b > 0 && a <= c
    ensures a / b <= c / b
  {
    FloorAtLeast(c, b, a / b);
    QuotientBounds(a, b);
  }

  lemma FloorAntitone(a: nat, b: nat, c: nat)
    requires 0 < b <= c
    ensures a / c <= a / b
  {
    QuotientBounds(a, c);
    MulMonotone(a / c, b, c);
    assert (a / c) * b == b * (a / c);
    assert (a / c) * c == c * (a / c);
    FloorAtLeast(a, b, a / c);
  }

  /** Two floors in a row are one floor by the product. */
  lemma NestedFloor(a: nat, b: nat, c: nat)
    requires b > 0 && c > 0
    ensures b * c > 0 && a / b / c == a / (b * c)
  {
    NonZero(b, c);
    var q := a / b / c;
    FloorAtLeast(a / b, c, q);
    FloorAtLeast(a, b, c * q);
    assert b * (c * q) == (b * c) * q;
    FloorAtLeast(a, b * c, q);
    FloorAtLeast(a / b, c, q + 1);
    FloorAtLeast(a, b, c * (q + 1));
    assert b * (c * (q + 1)) == (b * c) * (q + 1);
    FloorAtLeast(a, b * c, q + 1);
  }

  // ---------- quotes ----------

  /** The check admits a pair exactly when debt * 10^8 < limit * collateral * price. */
  lemma CheckAdmitsIff(collateral: nat, loan: nat, price: nat, limit: nat)
    requires price > 0 && limit > 0 && collateral > 0 && loan > 0
    ensures Quote(collateral, loan, price, limit) ==
            if loan * PREC < collateral * price * limit then Success(CollateralLoan(collateral, loan))
                else Failure(OverLTVLimit)
  {
    NonZero(collateral, price);
    FloorAtLeast(loan * PREC, collateral * price, limit);
  }

  /** The quoted loan is the largest within the limit: one more unit is refused. */
  lemma QuotedLoanIsTight(collateral: nat, price: nat, limit: nat)
    requires price > 0 && limit > 0 && collateral > 0
    ensures collateral * price > 0
    ensures Quote(collateral, 0, price, limit).Success?
    ensures var q := Quote(collateral, 0, price, limit).value.loan;
            && Ltv(collateral, q, price) <= limit
            && Quote(collateral, q + 1, price, limit) == Failure(OverLTVLimit)
  {
    NonZero(collateral, price);
    var q := Quote(collateral, 0, price, limit).value.loan;
    var v := collateral * price * limit;
    QuotientBounds(v, PREC);
    FloorMonotone(q * PREC, v, collateral * price);
    assert v / (collateral * price) == limit by { ExactQuotient(collateral * price, limit); }
    CheckAdmitsIff(collateral, q + 1, price, limit);
  }

  lemma ExactQuotient(b: nat, c: nat)
    requires b > 0
    ensures b * c / b == c
  {
    FloorAtLeast(b * c, b, c);
    FloorAtLeast(b * c, b, c + 1);
  }

  /** The quoted collateral is just too little: it is refused by the check, one unit more passes. */
  lemma QuotedCollateralIsTight(loan: nat, price: nat, limit: nat)
    requires price > 0 && limit > 0 && loan > 0
    ensures Quote(0, loan, price, limit).Success?
    ensures var c := Quote(0, loan, price, limit).value.collateral;
            && (c > 0 ==> Quote(c, loan, price, limit) == Failure(OverLTVLimit))
            && Quote(c + 1, loan, price, limit) == Success(CollateralLoan(c + 1, loan))
  {
    NonZero(price, limit);
    var c := Quote(0, loan, price, limit).value.collateral;
    QuotientBounds(loan * PREC, price * limit);
    assert (price * limit) * c == c * price * limit;
    assert (price * limit) * (c + 1) == (c + 1) * price * limit;
    assert (price * limit) * (c + 1) == (price * limit) * c + price * limit;
    CheckAdmitsIff(c + 1, loan, price, limit);
    if c > 0 { CheckAdmitsIff(c, loan, price, limit); }
  }

  /** A lower price never lowers the LTV. */
  lemma LtvFallsWithPrice(collateral: nat, debt: nat, low: nat, high: nat)
    requires collateral > 0 && 0 < low <= high
    ensures collateral * low > 0 && collateral * high > 0
    ensures Ltv(collateral, debt, high) <= Ltv(collateral, debt, low)
  {
    NonZero(collateral, low);
    NonZero(collateral, high);
    MulMonotone(collateral, low, high);
    FloorAntitone(debt * PREC, collateral * low, collateral * high);
  }

  // ---------- collateral that stays available ----------

  /** A value of at most limit/10^8 of the collateral's worth is less than the collateral. */
  lemma BelowLimitLeavesSome(collateral: nat, value: nat, price: nat, limit: nat)
    requires price > 0 && 0 < collateral && limit < PREC
    requires value * PREC <= collateral * price * limit
    ensures value / price < collateral
  {
    if value / price >= collateral {
      FloorAtLeast(value, price, collateral);
      NonZero(collateral, price);
      assert price * collateral == collateral * price;
      MulMonotone(PREC, collateral * price, value);
      assert PREC * value == value * PREC;
      StrictFactor(collateral * price, limit, PREC);
    }
  }

  lemma StrictFactor(k: nat, x: nat, y: nat)
    requires k > 0 && x < y
    ensures k * x < y * k && k * x < k * y
  {
  }

  /** An admitted application leaves at least one unit of collateral available. */
  lemma AdmittedLeavesCollateral(collateral: nat, loan: nat, price: nat, limit: nat)
    requires price > 0 && 0 < limit < PREC && collateral > 0
    requires Quote(collateral, loan, price, limit).Success?
    ensures loan / price < collateral
  {
    if loan > 0 {
      CheckAdmitsIff(collateral, loan, price, limit);
      BelowLimitLeavesSome(collateral, loan, price, limit);
    }
  }

  /** A draw within the credit leaves at least one unit of collateral available. */
  lemma DrawLeavesCollateral(available: nat, amount: nat, price: nat, limit: nat)
    requires price > 0 && limit < PREC && available > 0
    requires amount <= Credit(available, price, limit)
    ensures amount / price < available
  {
    var v := available * price * limit;
    NestedFloor(v, LTV_PREC, PRICE_PREC);
    QuotientBounds(v, PREC);
    BelowLimitLeavesSome(available, amount, price, limit);
  }

  // ---------- rate ----------

  /** Utilisation for cash F and debt L: deposits are counted as F + L, so L / (F + 2L). */
  function Utilisation(cash: nat, debt: nat): (x: nat)
    requires cash + 2 * debt > 0
    ensures x <= 5000_0000
  {
    FloorAtLeast(debt * PREC, cash + debt + debt, 5000_0001);
    debt * PREC / (cash + debt + debt)
  }

  datatype Curve = Linear | Steep | Middle

  /** Which formula the code picks. Its first bound is 4 * 10^8, ten times the documented 40%,
      and lies above the bound of the second test. */
  function CurveAt(x: nat): Curve {
    if x < 4000_00000 then Linear else if x >= 8000_0000 then Steep else Middle
  }

  function LinearRate(x: nat): nat {
    (x + 5000_0000) / 10
  }

  /** The published curve below 80%, in the same units: 10% slope to 40%, then 20%. */
  function DocumentedRate(x: nat): nat
    requires x < 8000_0000
  {
    if x < 4000_0000 then (x + 5000_0000) / 10 else (2 * x + 1000_0000) / 10
  }

  function LoanRate(cash: nat, debt: nat): nat
    requires cash + 2 * debt > 0
  {
    LinearRate(Utilisation(cash, debt))
  }

  /** No utilisation at all selects the middle formula, and none that occurs selects the steep one. */
  lemma OnlyLinearRuns(x: nat, cash: nat, debt: nat)
    requires cash + 2 * debt > 0
    ensures CurveAt(x) != Middle
    ensures CurveAt(Utilisation(cash, debt)) == Linear
  {
  }

  /** The pool never charges more than the published curve, and charges exactly the published rate
      if and only if its utilisation is below 40% and five parts in 10^8. */
  lemma ChargesDocumentedIff(cash: nat, debt: nat)
    requires cash + 2 * debt > 0
    ensures LoanRate(cash, debt) <= DocumentedRate(Utilisation(cash, debt))
    ensures LoanRate(cash, debt) == DocumentedRate(Utilisation(cash, debt)) <==>
            debt * PREC < 4000_0005 * (cash + 2 * debt)
  {
    FloorAtLeast(debt * PREC, cash + 2 * debt, 4000_0005);
  }

  /** The utilisation never exceeds one half, so only the linear branch runs, its two floors
      are one, and the rate stays between 5% and 10%. */
  lemma RateIsLinear(cash: nat, debt: nat)
    requires cash + 2 * debt > 0
    ensures LoanRate(cash, debt) == (PREC * debt + 5000_0000 * (cash + 2 * debt)) / (10 * (cash + 2 * debt))
    ensures 500_0000 <= LoanRate(cash, debt) <= 1000_0000
  {
    var d := cash + 2 * debt;
    var x := Utilisation(cash, debt);
    var a := debt * PREC + 5000_0000 * d;
    assert (debt * PREC) / d + 5000_0000 == a / d by { ShiftFloor(debt * PREC, 5000_0000, d); }
    NestedFloor(a, d, 10);
    assert d * 10 == 10 * d;
  }

  lemma ShiftFloor(a: nat, k: nat, b: nat)
    requires b > 0
    ensures a / b + k == (a + k * b) / b
  {
    QuotientBounds(a, b);
    assert b * (a / b + k) == b * (a / b) + k * b;
    FloorAtLeast(a + k * b, b, a / b + k);
    assert b * (a / b + k + 1) == b * (a / b + k) + b;
    FloorAtLeast(a + k * b, b, a / b + k + 1);
  }

  /** More debt never lowers the rate; more cash never raises it. */
  lemma RateMonotone(cash: nat, debt: nat, moreCash: nat, moreDebt: nat)
    requires cash + 2 * debt > 0 && cash <= moreCash && debt <= moreDebt
    ensures LoanRate(cash, debt) <= LoanRate(cash, moreDebt)
    ensures LoanRate(moreCash, debt) <= LoanRate(cash, debt)
  {
    RateIsLinear(cash, debt);
    RateIsLinear(cash, moreDebt);
    RateIsLinear(moreCash, debt);
    FloorAntitone(debt * PREC, cash + 2 * debt, moreCash + 2 * debt);
    UtilisationGrows(cash, debt, moreDebt);
  }

  lemma UtilisationGrows(cash: nat, debt: nat, more: nat)
    requires cash + 2 * debt > 0 && debt <= more
    ensures Utilisation(cash, debt) <= Utilisation(cash, more)
  {
    var x := Utilisation(cash, debt);
    var d, e := cash + 2 * debt, cash + 2 * more;
    QuotientBounds(debt * PREC, d);
    RateIsLinear(cash, debt);
    // x <= 10^8 / 2, so the extra debt carries its own weight
    assert e * x == d * x + 2 * (more - debt) * x by { assert e == d + 2 * (more - debt); }
    MulMonotone(2 * (more - debt), x, 5000_0000);
    FloorAtLeast(more * PREC, e, x);
  }

  // ---------- interest ----------

  /** One loan's share of the interest; total is the recorded TotalLoan. */
  function Share(interest: nat, debt: nat, total: nat): nat
    requires total > 0
  {
    interest * debt / (total * PREC)
  }
}
