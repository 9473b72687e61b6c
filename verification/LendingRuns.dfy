/** Whole runs of deposit-loan calls, blocks and outside ledger activity, at any prices. */
module LendingRuns {
  import opened Base
  import opened Ledger
  import opened Conservation
  import opened Lending
  import opened LendingInvariant
  import opened LendingBlock

  datatype Op =
    | Stake(who: AccountId, asset: AssetId, amount: U128)
    | Redeem(who: AccountId, asset: AssetId, amount: U128)
    | Apply(who: AccountId, collateral: U128, loan: U128, price: U64)
    | Repay(who: AccountId, id: LoanId)
    | Draw(who: AccountId, id: LoanId, amount: U128, price: U64)
    | AddCollateral(who: AccountId, id: LoanId, amount: U128)
    | MarkLiquidated(caller: AccountId, id: LoanId, auction: U128)
    | NewBlock(price: U64, order: seq<LoanId>, now: nat)
    | Outside(ident: AssetId -> nat, op: LedgerOp)

  /** Calls with a price have one, and a block enumerates the loans there are. */
  ghost predicate WellFormed(w: World, op: Op) {
    match op
    case Apply(_, _, _, price) => price > 0
    case NewBlock(price, order, _) => price > 0 && Enumerates(order, w.loans.Keys)
    case _ => true
  }

  ghost predicate Faults(c: Config, w: World, op: Op)
    requires WellConfigured(c) && Consistent(w) && WellFormed(w, op)
  {
    match op
    case Stake(who, asset, amount) => asset == c.collectionAsset && StakeFaults(c, w, who, amount)
    case Redeem(who, asset, amount) => RedeemFaults(c, w, who, asset, amount)
    case Apply(who, collateral, loan, price) => ApplyFaults(c, w, who, collateral, loan, price)
    case Repay(who, id) => RepayFaults(c, w, who, id)
    case Draw(who, id, amount, price) => DrawFaults(c, w, who, id, amount, price)
    case AddCollateral(who, id, amount) => AddFaults(c, w, who, id, amount)
    case MarkLiquidated(caller, id, auction) => LiquidateFaults(c, w, caller, id, auction)
    case NewBlock(price, order, _) => BlockFaults(c, w, price, order)
    case Outside(_, _) => false
  }

  ghost predicate CanRun(c: Config, w: World, op: Op) {
    WellConfigured(c) && Consistent(w) && WellFormed(w, op) && !Faults(c, w, op)
  }

  ghost function Exec(c: Config, w: World, op: Op): (DispatchResult, World)
    requires CanRun(c, w, op)
  {
    match op
    case Stake(who, asset, amount) => Staking(c, w, who, asset, amount)
    case Redeem(who, asset, amount) => Redeeming(c, w, who, asset, amount)
    case Apply(who, collateral, loan, price) => Applying(c, w, who, collateral, loan, price)
    case Repay(who, id) => Repaying(c, w, who, id)
    case Draw(who, id, amount, price) => Drawing(c, w, who, id, amount, price)
    case AddCollateral(who, id, amount) => AddingCollateral(c, w, who, id, amount)
    case MarkLiquidated(caller, id, auction) => MarkingLiquidated(c, w, caller, id, auction)
    case NewBlock(price, order, now) => (Ok, Block(c, w, price, order, now))
    case Outside(ident, op) => (Ok, w.(book := LedgerStep(ident, w.book, op)))
  }

  lemma ExecConsistent(c: Config, w: World, op: Op)
    requires CanRun(c, w, op)
    ensures Consistent(Exec(c, w, op).1)
  {
    match op
    case Stake(who, asset, amount) => StakingKeeps(c, w, who, amount);
    case Redeem(who, asset, amount) => RedeemingKeeps(c, w, who, asset, amount);
    case Apply(who, collateral, loan, price) => ApplyingKeeps(c, w, who, collateral, loan, price);
    case Repay(who, id) => RepayingKeeps(c, w, who, id);
    case Draw(who, id, amount, price) => DrawingKeeps(c, w, who, id, amount, price);
    case AddCollateral(who, id, amount) => AddingKeeps(c, w, who, id, amount);
    case MarkLiquidated(caller, id, auction) => LiquidatedKeeps(c, w, caller, id, auction);
    case NewBlock(price, order, now) => BlockEffect(c, w, price, order, now);
    case Outside(ident, op) => LedgerStepSound(ident, w.book, op);
  }

  /** No call of the pallet creates or destroys any asset. */
  lemma ExecKeepsIssuance(c: Config, w: World, op: Op)
    requires CanRun(c, w, op) && !op.Outside?
    ensures Exec(c, w, op).1.book.issuance == w.book.issuance
  {
    match op
    case Stake(who, asset, amount) => StakingKeeps(c, w, who, amount);
    case Redeem(who, asset, amount) => RedeemingKeeps(c, w, who, asset, amount);
    case Apply(who, collateral, loan, price) => ApplyingKeeps(c, w, who, collateral, loan, price);
    case Repay(who, id) => RepayingKeeps(c, w, who, id);
    case Draw(who, id, amount, price) => DrawingKeeps(c, w, who, id, amount, price);
    case AddCollateral(who, id, amount) => AddingKeeps(c, w, who, id, amount);
    case MarkLiquidated(caller, id, auction) => LiquidatedKeeps(c, w, caller, id, auction);
    case NewBlock(price, order, now) => BlockEffect(c, w, price, order, now);
  }

  // ---------- any run ----------

  ghost predicate Runnable(c: Config, w: World, ops: seq<Op>)
    decreases |ops|
  {
    ops == [] || (CanRun(c, w, ops[0]) && Runnable(c, Exec(c, w, ops[0]).1, ops[1..]))
  }

  ghost function Run(c: Config, w: World, ops: seq<Op>): World
    requires Runnable(c, w, ops)
    decreases |ops|
  {
    if ops == [] then w else Run(c, Exec(c, w, ops[0]).1, ops[1..])
  }

  /** Every reachable state: the ledger is conserved; each live loan has between 1 and its
      original collateral available; owner lists invert the loan table; the liquidating list is
      the set of liquidating loans; the totals cover the live sums. */
  lemma {:induction false} RunConsistent(c: Config, w: World, ops: seq<Op>)
    requires Consistent(w) && Runnable(c, w, ops)
    ensures Consistent(Run(c, w, ops))
    decreases |ops|
  {
    if ops != [] {
      ExecConsistent(c, w, ops[0]);
      RunConsistent(c, Exec(c, w, ops[0]).1, ops[1..]);
    }
  }

  // ---------- liquidation is one-way ----------

  /** From w to n: owners never change, statuses never fall, loans leave only forwards. */
  ghost predicate Forward(w: World, n: World) {
    && w.nextLoanId <= n.nextLoanId
    && (forall id :: id in n.loans && id < w.nextLoanId ==>
          id in w.loans && n.loans[id].who == w.loans[id].who && Rank(w.loans[id].status) <= Rank(n.loans[id].status))
  }

  lemma ExecForward(c: Config, w: World, op: Op)
    requires CanRun(c, w, op)
    ensures Forward(w, Exec(c, w, op).1)
    ensures forall id :: id in w.loans && w.loans[id].status.Liquidating? && id !in Exec(c, w, op).1.loans ==>
              op.MarkLiquidated? && op.id == id && Exec(c, w, op).0.Ok?
  {
    match op
    case Stake(_, _, _) => assert Exec(c, w, op).1.loans == w.loans;
    case Redeem(who, asset, amount) => RedeemForward(c, w, who, asset, amount);
    case Apply(who, collateral, loan, price) => ApplyForward(c, w, who, collateral, loan, price);
    case Repay(who, id) => RepayForward(c, w, who, id);
    case Draw(_, id, _, _) => OneLoanForward(w, Exec(c, w, op).1, id);
    case AddCollateral(_, id, _) => OneLoanForward(w, Exec(c, w, op).1, id);
    case MarkLiquidated(caller, id, auction) => LiquidatedForward(c, w, caller, id, auction);
    case NewBlock(price, order, now) => BlockForward(c, w, price, order, now);
    case Outside(_, _) =>
  }

  lemma RedeemForward(c: Config, w: World, who: AccountId, asset: AssetId, amount: nat)
    requires !RedeemFaults(c, w, who, asset, amount)
    ensures Redeeming(c, w, who, asset, amount).1.loans == w.loans
    ensures Redeeming(c, w, who, asset, amount).1.nextLoanId == w.nextLoanId
  {
  }

  lemma ApplyForward(c: Config, w: World, who: AccountId, collateral: nat, loan: nat, price: nat)
    requires WellConfigured(c) && Consistent(w) && price > 0
    ensures var n := Applying(c, w, who, collateral, loan, price).1;
            Forward(w, n) && w.loans.Keys <= n.loans.Keys
  {
  }

  lemma RepayForward(c: Config, w: World, who: AccountId, id: LoanId)
    requires WellConfigured(c) && Consistent(w)
    ensures var n := Repaying(c, w, who, id).1;
            Forward(w, n) && (n.loans == w.loans || (n.loans == w.loans - {id} && id !in w.liquidating))
  {
  }

  lemma LiquidatedForward(c: Config, w: World, caller: AccountId, id: LoanId, auction: nat)
    ensures var (r, n) := MarkingLiquidated(c, w, caller, id, auction);
            Forward(w, n) && n.loans == if r.Ok? then w.loans - {id} else w.loans
  {
  }

  lemma OneLoanForward(w: World, n: World, id: LoanId)
    requires n.nextLoanId == w.nextLoanId
    requires n.loans == w.loans ||
      (id in w.loans && id in n.loans && n.loans == w.loans[id := n.loans[id]]
       && n.loans[id].who == w.loans[id].who && n.loans[id].status == w.loans[id].status)
    ensures Forward(w, n) && n.loans.Keys == w.loans.Keys
  {
  }

  lemma BlockForward(c: Config, w: World, price: U64, order: seq<LoanId>, now: nat)
    requires CanRun(c, w, NewBlock(price, order, now))
    ensures Forward(w, Block(c, w, price, order, now)) && Block(c, w, price, order, now).loans.Keys == w.loans.Keys
  {
    BlockEffect(c, w, price, order, now);
    ScanIsPointwise(c, w, price, order);
  }

  /** Over any run: an id is never reused, its owner is fixed, and a liquidating loan that is
      still live is still liquidating. */
  lemma {:induction false} RunForward(c: Config, w: World, ops: seq<Op>)
    requires Consistent(w) && Runnable(c, w, ops)
    ensures Forward(w, Run(c, w, ops))
    decreases |ops|
  {
    if ops != [] {
      var m := Exec(c, w, ops[0]).1;
      ExecForward(c, w, ops[0]);
      ExecConsistent(c, w, ops[0]);
      RunForward(c, m, ops[1..]);
    }
  }

  ghost predicate MarkedIn(ops: seq<Op>, id: LoanId) {
    exists k :: 0 <= k < |ops| && ops[k].MarkLiquidated? && ops[k].id == id
  }

  lemma MarkedLater(ops: seq<Op>, id: LoanId)
    requires ops != [] && MarkedIn(ops[1..], id)
    ensures MarkedIn(ops, id)
  {
    var k :| 0 <= k < |ops[1..]| && ops[1..][k].MarkLiquidated? && ops[1..][k].id == id;
    assert ops[k + 1].id == id;
  }

  /** A liquidating loan that is gone at the end of a run was taken out by a mark_liquidated. */
  lemma {:induction false} LiquidatingLeavesOnlyMarked(c: Config, w: World, ops: seq<Op>, id: LoanId)
    requires Consistent(w) && Runnable(c, w, ops)
    requires id in w.loans && w.loans[id].status.Liquidating? && id !in Run(c, w, ops).loans
    ensures MarkedIn(ops, id)
    decreases |ops|
  {
    var m := Exec(c, w, ops[0]).1;
    ExecForward(c, w, ops[0]);
    if id in m.loans {
      ExecConsistent(c, w, ops[0]);
      LiquidatingLeavesOnlyMarked(c, m, ops[1..], id);
      MarkedLater(ops, id);
    } else {
      assert ops[0].id == id;
    }
  }
}
