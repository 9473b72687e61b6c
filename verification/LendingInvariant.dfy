/** Every deposit-loan call keeps the tables consistent, also the call that ends in the
    rollback closure, and none of them changes an asset's issuance. */
module LendingInvariant {
  import opened Base
  import opened Sums
  import opened Ledger
  import opened Conservation
  import opened LoanMath
  import opened Lending

  // ---------- sums ----------

  lemma PutLoan(loans: map<LoanId, Loan>, id: LoanId, l: Loan)
    ensures Sum(Debts(loans[id := l])) ==
            Sum(Debts(loans)) - (if id in loans then loans[id].debt else 0) + l.debt
    ensures Sum(Originals(loans[id := l])) ==
            Sum(Originals(loans)) - (if id in loans then loans[id].original else 0) + l.original
  {
    assert Debts(loans[id := l]) == Debts(loans)[id := l.debt];
    assert Originals(loans[id := l]) == Originals(loans)[id := l.original];
    SumUpdate(Debts(loans), id, l.debt);
    SumUpdate(Originals(loans), id, l.original);
  }

  lemma DropLoan(loans: map<LoanId, Loan>, id: LoanId)
    requires id in loans
    ensures Sum(Debts(loans - {id})) == Sum(Debts(loans)) - loans[id].debt
    ensures Sum(Originals(loans - {id})) == Sum(Originals(loans)) - loans[id].original
  {
    assert Debts(loans - {id}) == Debts(loans) - {id};
    assert Originals(loans - {id}) == Originals(loans) - {id};
    SumRemove(Debts(loans), id);
    SumRemove(Originals(loans), id);
  }

  // ---------- the owner index ----------

  lemma NoDupConcat<T>(s: seq<T>, t: seq<T>)
    requires NoDup(s) && NoDup(t) && forall x :: x in s ==> x !in t
    ensures NoDup(s + t)
  {
    forall i, j | 0 <= i < j < |s + t| ensures (s + t)[i] != (s + t)[j] {
      if i < |s| <= j { assert s[i] in s && t[j - |s|] in t; }
    }
  }

  /** Away from one owner the two tables show the same loans to the same owners. */
  ghost predicate SameElsewhere(loans: map<LoanId, Loan>, next: map<LoanId, Loan>, owner: AccountId) {
    && (forall id :: id in next && next[id].who != owner ==> id in loans && loans[id].who == next[id].who)
    && (forall id :: id in loans && loans[id].who != owner ==> id in next && next[id].who == loans[id].who)
  }

  lemma SameListElsewhere(loans: map<LoanId, Loan>, next: map<LoanId, Loan>, owner: AccountId, who: AccountId,
      list: seq<LoanId>)
    requires SameElsewhere(loans, next, owner) && who != owner && ListExact(loans, who, list)
    ensures ListExact(next, who, list)
  {
  }

  /** One account's list was replaced; every other list is as before. */
  lemma IndexReplaced(loans: map<LoanId, Loan>, next: map<LoanId, Loan>, byAccount: map<AccountId, seq<LoanId>>,
                      owner: AccountId, list: seq<LoanId>)
    requires IndexExact(loans, byAccount) && ListExact(next, owner, list) && SameElsewhere(loans, next, owner)
    ensures IndexExact(next, byAccount[owner := list])
  {
    var index := byAccount[owner := list];
    forall who: AccountId ensures ListExact(next, who, IdsOf(index, who)) {
      if who != owner {
        assert IdsOf(index, who) == IdsOf(byAccount, who);
        SameListElsewhere(loans, next, owner, who, IdsOf(byAccount, who));
      }
    }
  }

  lemma ListPush(loans: map<LoanId, Loan>, l: Loan, list: seq<LoanId>)
    requires ListExact(loans, l.who, list) && l.id !in loans
    ensures ListExact(loans[l.id := l], l.who, list + [l.id])
  {
    NoDupConcat(list, [l.id]);
  }

  lemma ListDrop(loans: map<LoanId, Loan>, id: LoanId, list: seq<LoanId>)
    requires id in loans && ListExact(loans, loans[id].who, list)
    ensures ListExact(loans - {id}, loans[id].who, Without(list, id))
  {
    var cut := Without(list, id);
    forall x ensures x in cut <==> x in loans - {id} && loans[x].who == loans[id].who {
      assert x in cut <==> x in list && x != id;
    }
  }

  lemma ListRotate(loans: map<LoanId, Loan>, id: LoanId, list: seq<LoanId>)
    requires id in loans && ListExact(loans, loans[id].who, list)
    ensures ListExact(loans, loans[id].who, Without(list, id) + [id])
  {
    var cut := Without(list, id);
    NoDupConcat(cut, [id]);
    forall x ensures x in cut + [id] <==> x in list {
      assert x in cut <==> x in list && x != id;
    }
  }

  lemma IndexPush(loans: map<LoanId, Loan>, byAccount: map<AccountId, seq<LoanId>>, l: Loan)
    requires IndexExact(loans, byAccount) && l.id !in loans
    ensures IndexExact(loans[l.id := l], byAccount[l.who := IdsOf(byAccount, l.who) + [l.id]])
  {
    var list := IdsOf(byAccount, l.who);
    ListPush(loans, l, list);
    IndexReplaced(loans, loans[l.id := l], byAccount, l.who, list + [l.id]);
  }

  lemma IndexDrop(loans: map<LoanId, Loan>, byAccount: map<AccountId, seq<LoanId>>, id: LoanId)
    requires IndexExact(loans, byAccount) && id in loans
    ensures IndexExact(loans - {id}, byAccount[loans[id].who := Without(IdsOf(byAccount, loans[id].who), id)])
  {
    var list := IdsOf(byAccount, loans[id].who);
    ListDrop(loans, id, list);
    IndexReplaced(loans, loans - {id}, byAccount, loans[id].who, Without(list, id));
  }

  lemma IndexRotate(loans: map<LoanId, Loan>, byAccount: map<AccountId, seq<LoanId>>, id: LoanId)
    requires IndexExact(loans, byAccount) && id in loans
    ensures IndexExact(loans, byAccount[loans[id].who := Without(IdsOf(byAccount, loans[id].who), id) + [id]])
  {
    var list := IdsOf(byAccount, loans[id].who);
    ListRotate(loans, id, list);
    IndexReplaced(loans, loans, byAccount, loans[id].who, Without(list, id) + [id]);
  }

  lemma IndexUpdate(loans: map<LoanId, Loan>, byAccount: map<AccountId, seq<LoanId>>, id: LoanId, l: Loan)
    requires IndexExact(loans, byAccount) && id in loans && l.who == loans[id].who
    ensures IndexExact(loans[id := l], byAccount)
  {
    forall who: AccountId ensures ListExact(loans[id := l], who, IdsOf(byAccount, who)) {
      assert ListExact(loans, who, IdsOf(byAccount, who));
    }
  }

  // ---------- one call at a time ----------

  lemma StakingKeeps(c: Config, w: World, who: AccountId, amount: nat)
    requires Consistent(w)
    ensures Consistent(CreateStaking(c, w, who, amount).1)
    ensures CreateStaking(c, w, who, amount).1.book.issuance == w.book.issuance
  {
    if Free(w.book, c.collectionAsset, who) >= amount {
      MovedSound(w.book, c.collectionAsset, who, c.collectionAccount, amount);
    }
  }

  lemma RedeemAllKeeps(c: Config, w: World, who: AccountId)
    requires Consistent(w) && Redeemable(w)
    ensures Consistent(RedeemAll(c, w, who).1)
    ensures RedeemAll(c, w, who).1.book.issuance == w.book.issuance
  {
    if RedeemAll(c, w, who).0.Ok? {
      MovedSound(w.book, c.collectionAsset, c.collectionAccount, who, WillGet(w, who));
    }
  }

  lemma RedeemingKeeps(c: Config, w: World, who: AccountId, asset: AssetId, amount: nat)
    requires Consistent(w) && !RedeemFaults(c, w, who, asset, amount)
    ensures Consistent(Redeeming(c, w, who, asset, amount).1)
    ensures Redeeming(c, w, who, asset, amount).1.book.issuance == w.book.issuance
  {
    if RedeemChecked(c, w, asset, amount) {
      var get, m := WillGet(w, who), RedeemAll(c, w, who).1;
      if get >= amount {
        RedeemAllKeeps(c, w, who);
        StakingKeeps(c, m, who, get - amount);
        assert Redeeming(c, w, who, asset, amount).1 == CreateStaking(c, m, who, get - amount).1;
      }
    }
  }

  /** The transfer of the loan cannot fail after the collateral went in: another asset moved. */
  lemma CashUntouchedByCollateral(c: Config, b: Book, from: AccountId, to: AccountId, x: nat, who: AccountId)
    requires WellConfigured(c) && Free(b, c.collateralAsset, from) >= x
    ensures Free(Moved(b, c.collateralAsset, from, to, x), c.collectionAsset, who) == Free(b, c.collectionAsset, who)
  {
  }

  lemma ApplyingKeeps(c: Config, w: World, who: AccountId, collateral: nat, loan: nat, price: nat)
    requires WellConfigured(c) && Consistent(w) && price > 0
    requires !ApplyFaults(c, w, who, collateral, loan, price)
    ensures Consistent(Applying(c, w, who, collateral, loan, price).1)
    ensures Applying(c, w, who, collateral, loan, price).1.book.issuance == w.book.issuance
  {
    var (r, n) := Applying(c, w, who, collateral, loan, price);
    if r.Ok? {
      var q := Quote(collateral, loan, price, c.ltvLimit).value;
      AppliedBook(c, w.book, who, q.collateral, loan);
      AdmittedLeavesCollateral(collateral, loan, price, c.ltvLimit);
      FloorMonotone(0, loan, price);
      var l := n.loans[w.nextLoanId];
      PutLoan(w.loans, l.id, l);
      IndexPush(w.loans, w.byAccount, l);
      LiquidationSkips(w.loans, w.liquidating, l.id, l);
    }
  }

  lemma AppliedBook(c: Config, b: Book, who: AccountId, collateral: nat, loan: nat)
    requires WellConfigured(c) && Sound(b)
    requires Free(b, c.collateralAsset, who) >= collateral && Cash(c, b) >= loan
    ensures var paidIn := Moved(b, c.collateralAsset, who, c.pawnShop, collateral);
            && Free(paidIn, c.collectionAsset, c.collectionAccount) >= loan
            && Sound(Moved(paidIn, c.collectionAsset, c.collectionAccount, who, loan))
            && Moved(paidIn, c.collectionAsset, c.collectionAccount, who, loan).issuance == b.issuance
  {
    MovedSound(b, c.collateralAsset, who, c.pawnShop, collateral);
    CashUntouchedByCollateral(c, b, who, c.pawnShop, collateral, c.collectionAccount);
    MovedSound(Moved(b, c.collateralAsset, who, c.pawnShop, collateral), c.collectionAsset, c.collectionAccount,
        who, loan);
  }

  lemma LiquidationSkips(loans: map<LoanId, Loan>, liquidating: seq<LoanId>, id: LoanId, l: Loan)
    requires LiquidationExact(loans, liquidating)
    requires l.status.Liquidating? <==> id in loans && loans[id].status.Liquidating?
    ensures LiquidationExact(loans[id := l], liquidating)
  {
  }

  lemma RepayingKeeps(c: Config, w: World, who: AccountId, id: LoanId)
    requires WellConfigured(c) && Consistent(w) && !RepayFaults(c, w, who, id)
    ensures Consistent(Repaying(c, w, who, id).1)
    ensures Repaying(c, w, who, id).1.book.issuance == w.book.issuance
  {
    if id in w.loans && w.loans[id].who == who && Free(w.book, c.loanAsset, who) >= w.loans[id].debt &&
        id !in w.liquidating {
      var l := w.loans[id];
      LoanWithinTotals(w, id);
      RepaidBook(c, w.book, l);
      if RepayRollsBack(c, w, who, id) {
        var index := IdsOf(w.byAccount, who);
        assert PaidIn(c, w, l).byAccount[who := Without(index, id) + [id]] ==
            w.byAccount[who := Without(index, id) + [id]];
        IndexRotate(w.loans, w.byAccount, id);
      } else {
        DropLoan(w.loans, id);
        IndexDrop(w.loans, w.byAccount, id);
        LiquidationWithout(w.loans, w.liquidating, id);
      }
    }
  }

  /** Paying in the debt spares the shop's collateral, and whatever follows conserves the supply. */
  lemma RepaidBook(c: Config, b: Book, l: Loan)
    requires WellConfigured(c) && Sound(b) && Free(b, c.loanAsset, l.who) >= l.debt
    ensures var paid := Moved(b, c.loanAsset, l.who, c.collectionAccount, l.debt);
            && Free(paid, c.collateralAsset, c.pawnShop) == Free(b, c.collateralAsset, c.pawnShop)
            && Free(paid, c.loanAsset, c.collectionAccount) >= l.debt
            && Sound(Moved(paid, c.loanAsset, c.collectionAccount, l.who, l.debt))
            && Moved(paid, c.loanAsset, c.collectionAccount, l.who, l.debt).issuance == b.issuance
            && (Free(paid, c.collateralAsset, c.pawnShop) >= l.original ==>
                  Sound(Moved(paid, c.collateralAsset, c.pawnShop, l.who, l.original))
                  && Moved(paid, c.collateralAsset, c.pawnShop, l.who, l.original).issuance == b.issuance)
  {
    var paid := Moved(b, c.loanAsset, l.who, c.collectionAccount, l.debt);
    MovedSound(b, c.loanAsset, l.who, c.collectionAccount, l.debt);
    MovedSound(paid, c.loanAsset, c.collectionAccount, l.who, l.debt);
    if Free(paid, c.collateralAsset, c.pawnShop) >= l.original {
      MovedSound(paid, c.collateralAsset, c.pawnShop, l.who, l.original);
    }
  }

  lemma LiquidationWithout(loans: map<LoanId, Loan>, liquidating: seq<LoanId>, id: LoanId)
    requires LiquidationExact(loans, liquidating) && id !in liquidating
    ensures LiquidationExact(loans - {id}, liquidating)
  {
  }

  lemma DrawingKeeps(c: Config, w: World, who: AccountId, id: LoanId, amount: nat, price: nat)
    requires WellConfigured(c) && Consistent(w) && !DrawFaults(c, w, who, id, amount, price)
    ensures Consistent(Drawing(c, w, who, id, amount, price).1)
    ensures Drawing(c, w, who, id, amount, price).1.book == w.book
  {
    var (r, n) := Drawing(c, w, who, id, amount, price);
    if r.Ok? {
      var l := w.loans[id];
      DrawLeavesCollateral(l.available, amount, price % U32_BOUND, c.ltvLimit);
      FloorMonotone(0, amount, price % U32_BOUND);
      PutLoan(w.loans, id, n.loans[id]);
      IndexUpdate(w.loans, w.byAccount, id, n.loans[id]);
      LiquidationSkips(w.loans, w.liquidating, id, n.loans[id]);
    }
  }

  lemma AddingKeeps(c: Config, w: World, who: AccountId, id: LoanId, amount: nat)
    requires Consistent(w) && !AddFaults(c, w, who, id, amount)
    ensures Consistent(AddingCollateral(c, w, who, id, amount).1)
    ensures AddingCollateral(c, w, who, id, amount).1.book.issuance == w.book.issuance
  {
    var (r, n) := AddingCollateral(c, w, who, id, amount);
    if r.Ok? {
      MovedSound(w.book, c.collectionAsset, who, c.pawnShop, amount);
      PutLoan(w.loans, id, n.loans[id]);
      IndexUpdate(w.loans, w.byAccount, id, n.loans[id]);
      LiquidationSkips(w.loans, w.liquidating, id, n.loans[id]);
    }
  }

  lemma TransferKeeps(b: Book, a: AssetId, from: AccountId, to: AccountId, x: nat)
    requires Sound(b)
    ensures Sound(Transfer(b, a, from, to, x).1)
    ensures Transfer(b, a, from, to, x).1.issuance == b.issuance
  {
    if Free(b, a, from) >= x { MovedSound(b, a, from, to, x); }
  }

  lemma PayoutKeeps(c: Config, b: Book, l: Loan, caller: AccountId, auction: nat)
    requires Sound(b) && Free(b, c.loanAsset, caller) >= auction >= l.debt
    ensures Sound(Payout(c, b, l, caller, auction).1)
    ensures Payout(c, b, l, caller, auction).1.issuance == b.issuance
  {
    MovedSound(b, c.loanAsset, caller, c.collectionAccount, l.debt);
    var paid := Moved(b, c.loanAsset, caller, c.collectionAccount, l.debt);
    var leftover := auction - l.debt;
    if leftover > 0 {
      var penalty := Penalty(c, leftover);
      var (first, b1) := Transfer(paid, c.loanAsset, c.collectionAccount, c.profitPool, penalty);
      TransferKeeps(paid, c.loanAsset, c.collectionAccount, c.profitPool, penalty);
      if first.Err? {
        TransferKeeps(b1, c.loanAsset, c.pawnShop, caller, l.debt);
      } else {
        RemainderKeeps(c, b1, l, caller, if leftover >= penalty then leftover - penalty else 0, penalty);
      }
    }
  }

  lemma RemainderKeeps(c: Config, b: Book, l: Loan, caller: AccountId, rest: nat, penalty: nat)
    requires Sound(b)
    ensures Sound(PayRemainder(c, b, l, caller, rest, penalty).1)
    ensures PayRemainder(c, b, l, caller, rest, penalty).1.issuance == b.issuance
  {
    var (second, b2) := Transfer(b, c.loanAsset, c.collectionAccount, l.who, rest);
    TransferKeeps(b, c.loanAsset, c.collectionAccount, l.who, rest);
    if second.Err? {
      var (third, b3) := Transfer(b2, c.loanAsset, c.profitPool, caller, penalty);
      TransferKeeps(b2, c.loanAsset, c.profitPool, caller, penalty);
      TransferKeeps(b3, c.collateralAsset, c.pawnShop, caller, l.original);
    }
  }

  lemma LiquidatedKeeps(c: Config, w: World, caller: AccountId, id: LoanId, auction: nat)
    requires Consistent(w)
    ensures Consistent(MarkingLiquidated(c, w, caller, id, auction).1)
    ensures MarkingLiquidated(c, w, caller, id, auction).1.book.issuance == w.book.issuance
  {
    if LiquidatePasses(c, w, caller, id, auction) {
      PayoutKeeps(c, w.book, w.loans[id], caller, auction);
      DropLoan(w.loans, id);
      IndexDrop(w.loans, w.byAccount, id);
    }
  }

  // ---------- scan ----------

  lemma ScanDefined(w: World, price: nat)
    requires LoansSound(w.loans, w.nextLoanId) && price > 0
    ensures forall id :: id in w.loans ==> w.loans[id].available * price != 0
  {
    forall id | id in w.loans ensures w.loans[id].available * price != 0 {
      NonZero(w.loans[id].available, price);
    }
  }

  /** The scan finds each newly liquidating loan exactly once, whatever the order. */
  lemma {:induction false} NewInExact(c: Config, loans: map<LoanId, Loan>, price: nat, order: seq<LoanId>)
    requires forall id :: id in order ==> id in loans && loans[id].available * price != 0
    requires NoDup(order)
    ensures forall id :: id in NewIn(c, loans, price, order) <==> id in order && NewlyLiquidating(c, loans[id], price)
    ensures NoDup(NewIn(c, loans, price, order))
  {
    if order != [] {
      assert order[0] in order && forall id :: id in order[1..] ==> id in order;
      assert forall id :: id in order ==> id == order[0] || id in order[1..];
      assert order[0] !in order[1..];
      NewInExact(c, loans, price, order[1..]);
    }
  }

  lemma ScannedKeeps(c: Config, w: World, price: nat, order: seq<LoanId>)
    requires Consistent(w) && price > 0 && Enumerates(order, w.loans.Keys)
    requires forall id :: id in w.loans ==> w.loans[id].available * price != 0
    ensures Consistent(Scanned(c, w, price, order))
  {
    var n := Scanned(c, w, price, order);
    RescanKeepsAmounts(c, w.loans, price);
    RescanKeepsIndex(c, w.loans, w.byAccount, price);
    ScanExact(c, w.loans, w.liquidating, price, order);
  }

  lemma ScanExact(c: Config, loans: map<LoanId, Loan>, liquidating: seq<LoanId>, price: nat, order: seq<LoanId>)
    requires LiquidationExact(loans, liquidating) && Enumerates(order, loans.Keys)
    requires forall id :: id in loans ==> loans[id].available * price != 0
    ensures LiquidationExact(Rescan(c, loans, price), liquidating + NewIn(c, loans, price, order))
  {
    NewInExact(c, loans, price, order);
    NoDupConcat(liquidating, NewIn(c, loans, price, order));
  }

  lemma RescanKeepsAmounts(c: Config, loans: map<LoanId, Loan>, price: nat)
    requires forall id :: id in loans ==> loans[id].available * price != 0
    ensures Debts(Rescan(c, loans, price)) == Debts(loans) && Originals(Rescan(c, loans, price)) == Originals(loans)
  {
  }

  lemma RescanKeepsIndex(c: Config, loans: map<LoanId, Loan>, byAccount: map<AccountId, seq<LoanId>>, price: nat)
    requires IndexExact(loans, byAccount) && forall id :: id in loans ==> loans[id].available * price != 0
    ensures IndexExact(Rescan(c, loans, price), byAccount)
  {
    forall who: AccountId ensures ListExact(Rescan(c, loans, price), who, IdsOf(byAccount, who)) {
      assert ListExact(loans, who, IdsOf(byAccount, who));
    }
  }

  // ---------- interest loop ----------

  lemma ChargeOneKeeps(c: Config, w: World, id: LoanId, interest: nat, total: nat, price: nat)
    requires WellConfigured(c) && LoansSound(w.loans, w.nextLoanId) && id in w.loans
    requires !ChargeOneFaults(c, w, id, interest, total, price)
    ensures var n := ChargeOne(c, w, id, interest, total, price);
            && LoansSound(n.loans, n.nextLoanId) && n.loans.Keys == w.loans.Keys
            && n.book.issuance == w.book.issuance
            && (Consistent(w) ==> Consistent(n))
  {
    var l := w.loans[id];
    var amount := Share(interest, l.debt, total);
    var (r, drawn) := Drawing(c, w, l.who, id, amount, price);
    if r.Ok? {
      DrawLeavesCollateral(l.available, amount, price % U32_BOUND, c.ltvLimit);
      FloorMonotone(0, amount, price % U32_BOUND);
    }
    if Consistent(w) {
      DrawingKeeps(c, w, l.who, id, amount, price);
      TransferKeeps(drawn.book, c.collectionAsset, l.who, c.collectionAccount, amount);
    }
  }

  predicate ChargeFaults(c: Config, w: World, order: seq<LoanId>, interest: nat, total: nat, price: nat)
    requires WellConfigured(c) && LoansSound(w.loans, w.nextLoanId) && forall id :: id in order ==> id in w.loans
    decreases |order|
  {
    order != [] &&
    (ChargeOneFaults(c, w, order[0], interest, total, price)
     || (ChargeOneKeeps(c, w, order[0], interest, total, price);
         ChargeFaults(c, ChargeOne(c, w, order[0], interest, total, price), order[1..], interest, total, price)))
  }

  /** The interest loop over the loans in enumeration order. */
  function Charged(c: Config, w: World, order: seq<LoanId>, interest: nat, total: nat, price: nat): World
    requires WellConfigured(c) && LoansSound(w.loans, w.nextLoanId) && forall id :: id in order ==> id in w.loans
    requires !ChargeFaults(c, w, order, interest, total, price)
    decreases |order|
  {
    if order == [] then w
    else
      ChargeOneKeeps(c, w, order[0], interest, total, price);
      Charged(c, ChargeOne(c, w, order[0], interest, total, price), order[1..], interest, total, price)
  }

  lemma {:induction false} ChargedKeeps(c: Config, w: World, order: seq<LoanId>, interest: nat, total: nat, price: nat)
    requires WellConfigured(c) && Consistent(w) && forall id :: id in order ==> id in w.loans
    requires !ChargeFaults(c, w, order, interest, total, price)
    ensures Consistent(Charged(c, w, order, interest, total, price))
    ensures Charged(c, w, order, interest, total, price).book.issuance == w.book.issuance
    ensures Charged(c, w, order, interest, total, price).loans.Keys == w.loans.Keys
    decreases |order|
  {
    if order != [] {
      ChargeOneKeeps(c, w, order[0], interest, total, price);
      ChargedKeeps(c, ChargeOne(c, w, order[0], interest, total, price), order[1..], interest, total, price);
    }
  }
}
