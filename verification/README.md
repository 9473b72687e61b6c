# Verification model of the Definex money pool

This project models the money-pool core of the Definex runtime in Dafny and proves properties of
it: the multi-asset ledger (generic-asset), savings and collateral loans (deposit-loan), the
BTC bridge with its KYC queue, the price oracle's aggregation, and the fee multiplier update.

`dafny verify dfyconfig.toml` checks everything.

## How it is laid out

Each pallet appears twice. A class holds the storage cells and updates them in place, call by
call, in the order the code writes them; every unchecked addition, subtraction and product is
given a `U128` (or `U64`) type, so Dafny proves that it stays in range. A module of functions on
values says what each call means without that order. The methods are proved against the functions;
the theorems are about the functions and about runs of them. For every call the `…Effects` modules
say when it succeeds and with which error it is refused, whom it pays what (`Payments.Settles`: the
free balance of every account in every asset), and every other cell it changes.

| files | content |
|---|---|
| `Base`, `Sums` | bounded integers, results, duplicate-free lists, sums over maps |
| `Ledger`, `Conservation`, `LockBook`, `LedgerEffects`, `GenericAsset` | ledger calls as values; supply conservation; the lock book; when calls succeed and all they change; the pallet |
| `Payments` | what a list of payments does to every account and asset, whichever accounts coincide |
| `LoanMath`, `Lending`, `LendingInvariant`, `LendingBlock`, `LendingRuns`, `LendingAudit`, `LendingCorners`, `LendingEffects`, `DepositLoan` | loan arithmetic; the calls as values; what every call keeps; scan and interest; whole runs; what the counters count and when the shop can pay; where the code departs from its interface; when calls succeed, whom they pay and all they change; the pallet |
| `BridgeState`, `BridgeRuns`, `BridgeEffects`, `BridgePallet` | bridge calls as values; whole runs; when calls succeed and what becomes of deposits and withdrawals; the pallet |
| `FeeMultiplier`, `Oracle` | the fee multiplier over blocks; candidates and prices |

A call that returns an error does not undo its writes, as in this version of the framework. A
*fault* is a division by zero, a failed `unwrap` or `expect`, or unchecked arithmetic leaving the
128-bit range. The predicates named `…Faults` say for each loan call when that happens, and the
methods require that it does not. The one unchecked addition not treated so is the oracle's 64-bit
sum of candidates, which anybody can make overflow: it wraps, as it does in the release profile
(Cargo.toml:1-2), where no overflow check is switched on.

A run of loan calls is any sequence of calls, blocks and ledger calls by others that do not fault,
with an arbitrary positive price at each step.

Assumptions on the configuration (`WellConfigured`): the collateral asset differs from the loan and
the collection asset, the LTV limit is above 0 and below 10^8, and the minimum collateral is at
least 1. The shipped development genesis sets the minimum to 0 (cli/src/chain_spec.rs:322);
`LendingCorners.NoCollateralQuotedIff` says what that would allow. It also sets the liquidation
penalty to 1300% (cli/src/chain_spec.rs:323): with it the penalty always exceeds the surplus, so a
liquidation with a surplus fails its first payout or, where that can be paid, faults on the
subtraction after it (`PayoutFaults` in Lending).

## Where the code and its description differ

The code is followed; each case has a lemma.

- README.md:9 of the repository gives three rate branches from 40% and 80% utilisation. The first
  bound in the code is 400%, so only the linear branch ever runs (`LoanMath.OnlyLinearRuns`,
  `LoanMath.RateIsLinear`). The published rate is charged exactly below a utilisation of
  40.000005% (`LoanMath.ChargesDocumentedIff`).
- `BonusTime` is overwritten before it is read, so no interest accrues in any block
  (`DepositLoan.Saving.CalculateLoanInterestRate`, `LendingBlock.BlockEffect`). The loop is proved
  for any interest all the same (`LendingBlock.InterestIsBounded`).
- The comment on `draw` (runtime/modules/deposit-loan/src/lib.rs:426) ties drawing to the loan's
  LTV. The check looks at the available collateral only. `LendingCorners.DrawKeepsLimitIff` says
  which draws respect the limit, `LendingCorners.DustDrawsPassTheLimit` that small ones can be
  repeated past it.
- `apply` checks the LTV on all of the collateral, the scan on what is left available. An admitted
  loan can so be liquidated by the next block at the same price
  (`LendingCorners.LiquidatedAtOnceIff`), and with the shipped limits one of 60% is
  (`LendingCorners.ShippedLimitsLiquidateAtOnce`).
- `redeem` drops the errors of its two halves and leaves the saver's own entry in place
  (`LendingCorners.RedeemNet`), so that the same entry can be redeemed again as often as cash and
  counters allow (`LendingCorners.EntryRedeemsAgain`).
- `add_collateral` credits collateral but moves the collection asset, after which a repayment can
  end in its rollback closure, and that closure corrupts the totals
  (`LendingCorners.AddThenRepayRollsBack`). The closure never runs as long as nobody calls
  `add_collateral`, the shop does not apply or repay itself, no outside call takes collateral from
  the shop, and no failed liquidation gave any of it away (`LendingAudit.RunSolvent`).
- The oracle's mean is not always among the candidates: when their sum wraps the price falls, down
  to 0 for two candidates of 2^63 (`Oracle.TwoHalvesMakeZero`). `Oracle.StoredMeanIsMeanIff` and
  `Oracle.AlwaysAtLeastIff` say exactly when it is the mean and when no price falls below a bound.
- An application that names only collateral records the quoted debt and pays out nothing
  (`LendingCorners.CashMatchesDebtIff`).
- `mark_liquidated` collects the debt from the auction's account but pays the penalty and the
  surplus from the collection account (`LendingCorners.LiquidationPaysIff`). When that is short the
  debt stays collected, and the compensation can hand the shop's collateral to the caller
  (`LendingCorners.FailedLiquidationMovesMoney`).

## Model

| member | source | states |
|---|---|---|
| Conservation.LedgerRunSound | runtime/modules/generic-asset/src/lib.rs:421-642 | over every run of transfers, mints, burns, creations, permission changes, reserves and unreserves by anybody, for each asset the free and reserved balances of all accounts add up to its issuance, ids not yet created are held by nobody, and only created ids have permissions |
| Conservation.BalancesFit | runtime/modules/generic-asset/src/lib.rs:406-408 | two balances of one asset never exceed a u128 together, so total_balance and the additions of transfer, reserve and unreserve cannot overflow |
| Conservation.MintNeverOverflowsAccount | runtime/modules/generic-asset/src/lib.rs:427-439 | a mint that fits the issuance fits the account: FreeMintingOverflow is unreachable |
| Conservation.UncreatedIsEmpty | runtime/modules/generic-asset/src/lib.rs:484-505 | an id that was not created is held by no account, so the balance create_asset overwrites is 0 |
| Conservation.CreateSound | runtime/modules/generic-asset/src/lib.rs:479-510 | creating an asset, by reserved or by next id, keeps conservation although it overwrites a balance |
| Conservation.OnlyTakingLowers | runtime/modules/generic-asset/src/lib.rs:446-642 | a free balance falls only by a transfer, burn or reserve from that account |
| Conservation.EndowedBookSoundIff | runtime/modules/generic-asset/src/lib.rs:321-360 | the genesis endowment is conserved exactly when no account is listed twice |
| Payments.SettlesNext | runtime/modules/generic-asset/src/lib.rs:514-531 | one more covered transfer adds its payment to the list a book settles, for every account and asset, whichever accounts coincide |
| LedgerEffects.TransferEffect | runtime/modules/generic-asset/src/lib.rs:514-531 | a covered transfer pays the receiver from the sender and nobody else; an uncovered one changes nothing |
| LedgerEffects.MintEffect | runtime/modules/generic-asset/src/lib.rs:421-443 | succeeds exactly for the owner of the mint permission while the issuance fits, and credits the named receiver alone |
| LedgerEffects.BurnEffect | runtime/modules/generic-asset/src/lib.rs:446-469 | on a conserved ledger succeeds exactly for the owner of the burn permission when the named account holds the amount, and takes it from that account alone; TotalBurningUnderflow is never what refuses a covered burn |
| LedgerEffects.CreateEffect | runtime/modules/generic-asset/src/lib.rs:479-510 | succeeds exactly for a new id, reserved or next; all of the issue goes to one account, and no other balance, issuance or permission changes |
| LedgerEffects.PermitEffect | runtime/modules/generic-asset/src/lib.rs:259-277 | the update owner replaces the permissions of that asset alone |
| LedgerEffects.ReserveEffect | runtime/modules/generic-asset/src/lib.rs:559-590 | succeeds exactly when covered; one account's free balance falls, its reserved balance rises, its list gets a fresh lock at the end |
| LedgerEffects.UnreserveIff | runtime/modules/generic-asset/src/lib.rs:597-642 | succeeds exactly when the amount is reserved and some lock of the account, wherever it stands, has the named id or else the amount |
| LedgerEffects.UnreserveEffect | runtime/modules/generic-asset/src/lib.rs:597-642 | moves the amount back and cuts the first lock asked for, and that one alone, out of the list |
| GenericAsset.Assets.Genesis | runtime/modules/generic-asset/src/lib.rs:350-374 | with distinct accounts, listed ids below the next id and fresh symbols, the build endows exactly the listed pairs, every create_asset unwrap succeeds, and the ledger starts conserved |
| GenericAsset.Assets.Endow | runtime/modules/generic-asset/src/lib.rs:356-360 | the nested loops write the initial balance for every listed asset and account and nothing else |
| GenericAsset.Assets.CreateSymbols | runtime/modules/generic-asset/src/lib.rs:362-373 | creating the named ids changes no balance and gives all permissions to the root account |
| Conservation.PermissionsGuardAsset | runtime/modules/generic-asset/src/lib.rs:733-765 | what the check protects: an asset's permissions change only by a call of its update owner, its issuance only by a mint or burn of the owner of that permission, and both otherwise only when the asset is first created |
| GenericAsset.Assets.MintFree | runtime/modules/generic-asset/src/lib.rs:421-443 | the minting meaning, with the account overflow branch proved dead |
| GenericAsset.Assets.BurnFree | runtime/modules/generic-asset/src/lib.rs:446-469 | the burning meaning, with its two underflow errors in order |
| GenericAsset.Assets.CreateAsset | runtime/modules/generic-asset/src/lib.rs:479-510 | the creating meaning, with its three id errors |
| GenericAsset.Assets.UpdatePermissionOf | runtime/modules/generic-asset/src/lib.rs:259-277 | only the owner of the update permission replaces an asset's permissions |
| GenericAsset.Assets.MakeTransfer | runtime/modules/generic-asset/src/lib.rs:514-531 | two unchecked writes move the amount, neither leaves the u128 range, and a transfer to oneself changes nothing |
| GenericAsset.Assets.TransferCall | runtime/modules/generic-asset/src/lib.rs:250-254 | a zero amount is refused first, otherwise as make_transfer |
| GenericAsset.Assets.SetLock | runtime/modules/generic-asset/src/lib.rs:797-840 | takes the next lock id and appends the lock to the account's list |
| GenericAsset.DropFirstMatch | runtime/modules/generic-asset/src/lib.rs:875-887 | the filter with its first flag removes the first lock with the id and keeps the order of the rest |
| GenericAsset.Assets.RemoveLock | runtime/modules/generic-asset/src/lib.rs:874-892 | the list is written back exactly when one lock was removed |
| GenericAsset.LockIdExists | runtime/modules/generic-asset/src/lib.rs:894-902 | finds a lock id exactly when some lock carries it |
| GenericAsset.FindLockIdByAmount | runtime/modules/generic-asset/src/lib.rs:904-916 | returns the id of the first lock of that amount |
| GenericAsset.ValidLock | runtime/modules/generic-asset/src/lib.rs:609-626 | the chosen lock, or the right error, and a chosen lock is always on the list |
| GenericAsset.Assets.ReserveFunds | runtime/modules/generic-asset/src/lib.rs:559-590 | moves free to reserved under a fresh lock without overflow |
| GenericAsset.Assets.UnreserveFunds | runtime/modules/generic-asset/src/lib.rs:597-642 | moves reserved to free and removes the chosen lock without overflow |
| LockBook.LedgerRunKeepsLocks | runtime/modules/generic-asset/src/lib.rs:559-642 | over every run with exact releases an account's reserved balance is the sum of its locks, and lock ids are unique and below the next id |
| LockBook.UnreserveKeepsLocksIff | runtime/modules/generic-asset/src/lib.rs:603-632 | a successful unreserve keeps that agreement exactly when the amount is the amount of the lock it takes, which is always so when the lock is found by amount |
| LockBook.RemoveFirstAt | runtime/modules/generic-asset/src/lib.rs:874-887 | removal cuts out one position and keeps everything around it |
| LockBook.ReserveThenUnreserveById | runtime/modules/generic-asset/src/lib.rs:559-642 | reserving and releasing the returned id restores both balances and every list of locks |
| LockBook.ReserveThenUnreserveByAmount | runtime/modules/generic-asset/src/lib.rs:559-642 | reserving and releasing by amount restores both balances and the multiset of lock amounts |
| LoanMath.CheckAdmitsIff | runtime/modules/deposit-loan/src/lib.rs:669-679 | the LTV check admits a pair exactly when debt * 10^8 < limit * collateral * price |
| LoanMath.QuotedLoanIsTight | runtime/modules/deposit-loan/src/lib.rs:660-679 | the quoted loan has an LTV within the limit and one unit more is refused |
| LoanMath.QuotedCollateralIsTight | runtime/modules/deposit-loan/src/lib.rs:651-679 | the quoted collateral is refused when it is above 0, one unit more is accepted |
| LoanMath.LtvFallsWithPrice | runtime/modules/deposit-loan/src/lib.rs:96-107 | a lower price never lowers the LTV |
| LoanMath.AdmittedLeavesCollateral | runtime/modules/deposit-loan/src/lib.rs:593-597 | what an admitted application uses is less than its collateral, so the subtraction leaves at least 1 |
| LoanMath.DrawLeavesCollateral | runtime/modules/deposit-loan/src/lib.rs:959-974 | what a draw within the credit uses is less than the available collateral |
| LoanMath.OnlyLinearRuns | runtime/modules/deposit-loan/src/lib.rs:1045-1060 | no utilisation at all selects the middle branch and none that occurs selects the x^6 branch |
| LoanMath.RateIsLinear | runtime/modules/deposit-loan/src/lib.rs:1033-1053 | the two floors of the rate are one floor of a linear formula in cash and debt, between 5% and 10% |
| LoanMath.RateMonotone | runtime/modules/deposit-loan/src/lib.rs:1033-1053 | the rate never falls with more debt and never rises with more cash |
| LoanMath.ChargesDocumentedIff | README.md:9 | for any cash and debt of the pool the code never charges more than the published curve, and charges it exactly when the utilisation is below 40% plus five parts in 10^8 |
| LendingInvariant.ApplyingKeeps | runtime/modules/deposit-loan/src/lib.rs:543-626 | applying keeps the loan tables, the owner index, the liquidation list and the totals consistent and changes no issuance |
| LendingInvariant.RepayingKeeps | runtime/modules/deposit-loan/src/lib.rs:682-762 | so does repaying, also when it ends in the rollback closure |
| LendingInvariant.LiquidatedKeeps | runtime/modules/deposit-loan/src/lib.rs:768-873 | so does marking a loan liquidated, whichever payout fails |
| LendingInvariant.IndexRotate | runtime/modules/deposit-loan/src/lib.rs:707-722 | filtering an id out of the owner's list and pushing it back keeps the index exact |
| LendingInvariant.NewInExact | runtime/modules/deposit-loan/src/lib.rs:1003-1027 | whatever the enumeration order, a scan meets each newly liquidating loan exactly once |
| LendingBlock.ScanIsPointwise | runtime/modules/deposit-loan/src/lib.rs:994-1028 | after a scan that does not fault the liquidating list is the old one plus exactly the loans at or above the threshold; nothing but a status, moving up, has changed |
| LendingBlock.ScanIdempotent | runtime/modules/deposit-loan/src/lib.rs:994-1028 | scanning again at the same price changes nothing (scans that do not fault) |
| LendingBlock.LowerPriceLiquidatesMore | runtime/modules/deposit-loan/src/lib.rs:909-1028 | a scan at a lower price liquidates a superset (scans that do not fault) |
| LendingBlock.InterestIsBounded | runtime/modules/deposit-loan/src/lib.rs:1074-1100 | for any interest, 10^8 times the amounts charged is at most the interest, the shortfall against the pro-rata total is below one unit a loan, TotalDtoken grows by the amounts and TotalLoan by the draws that succeed |
| LendingBlock.ChargedTotals | runtime/modules/deposit-loan/src/lib.rs:1083-1100 | the loop's effect on both counters as sums over the loans as they were at its start |
| LendingBlock.ChargeNothingFaultsIff | runtime/modules/deposit-loan/src/lib.rs:1074-1100 | exactly when the interest loop, with no interest, divides by zero or overflows |
| LendingBlock.BlockEffect | runtime/modules/deposit-loan/src/lib.rs:216-221 | a whole block changes statuses, the liquidating list, rate and time; every debt, total, dtoken counter, free balance and issuance is as before |
| LendingRuns.RunConsistent | runtime/modules/deposit-loan/src/lib.rs:436-1120 | in every reachable state each live loan has between 1 and its original collateral available, the owner lists invert the loan table without duplicates, ids are below the next id, the liquidating list is the set of liquidating loans, and the totals cover the live sums |
| LendingRuns.ExecKeepsIssuance | runtime/modules/deposit-loan/src/lib.rs:436-1120 | no call of the pallet changes any asset's issuance |
| LendingRuns.RunForward | runtime/modules/deposit-loan/src/lib.rs:932-1027 | over any run ids are never reused, owners never change and a status never falls |
| LendingRuns.LiquidatingLeavesOnlyMarked | runtime/modules/deposit-loan/src/lib.rs:702-856 | a liquidating loan that is gone at the end of a run was taken out by mark_liquidated |
| LendingAudit.ExecSaves | runtime/modules/deposit-loan/src/lib.rs:437-541 | any step whatever keeps the savings equations below |
| LendingAudit.ExecCounts | runtime/modules/deposit-loan/src/lib.rs:543-979 | any step whatever keeps the two equations on the totals below, a repayment that rolls back and a liquidation that fails included |
| LendingAudit.RunAccounted | runtime/modules/deposit-loan/src/lib.rs:437-979 | over every run, whatever fails: TotalLoan and TotalCollateral are the live sums plus those of liquidated loans and of rolled-back repayments, MarketDtoken equals TotalDtoken, and the savers' dtokens are MarketDtoken plus what was redeemed without being cleared |
| LendingAudit.RunCovered | runtime/modules/deposit-loan/src/lib.rs:543-907 | over every run in which the shop does not apply or repay and no outside call takes its collateral, its balance plus what was recorded without arriving plus what failed liquidations gave away covers TotalCollateral |
| LendingAudit.RunSolvent | runtime/modules/deposit-loan/src/lib.rs:591-754 | over every such run without add_collateral and in which no failed liquidation gave the shop's collateral away, the shop's balance covers TotalCollateral and no repayment of any loan can reach the rollback closure |
| LendingAudit.RunRepaysIff | runtime/modules/deposit-loan/src/lib.rs:682-762 | after a run under the assumptions of RunSolvent a repayment succeeds exactly when the loan is live, owned by the caller, covered by the caller's balance and not liquidating |
| LendingAudit.CollateralTotalFits | runtime/modules/deposit-loan/src/lib.rs:620 | while the shop is solvent in that sense, adding a new loan's collateral to the total cannot overflow |
| LendingAudit.ErrLeavesStorageIff | runtime/modules/deposit-loan/src/lib.rs:442-965 | an error of any call but mark_liquidated leaves the whole storage unchanged exactly when it is not a repayment that rolls back |
| LendingAudit.RunErrorsAtomic | runtime/modules/deposit-loan/src/lib.rs:442-965 | after a run under the assumptions of RunSolvent every error of any call but mark_liquidated leaves the whole storage unchanged |
| LendingAudit.GenesisAccounted | runtime/modules/deposit-loan/src/lib.rs:133-205 | an empty pallet on a conserved ledger satisfies everything the run theorems start from |
| LendingCorners.RedeemNet | runtime/modules/deposit-loan/src/lib.rs:484-541 | redeeming r moves exactly r and lowers both counters by r when the redeem-all guards hold; otherwise it stakes the rest once more, or does nothing |
| LendingCorners.EntryRedeemsAgain | runtime/modules/deposit-loan/src/lib.rs:484-541 | for any n, with cash and MarketDtoken of at least n * u a saver of u > 0 can redeem u n times and is paid n * u, no call faulting and every saver's entry staying as it was |
| LendingCorners.RedeemDividesByZeroIff | runtime/modules/deposit-loan/src/lib.rs:494-511 | the two divisions are defined exactly when something is saved and the total has not outgrown the market amount |
| LendingCorners.CashMatchesDebtIff | runtime/modules/deposit-loan/src/lib.rs:593-619 | the cash paid out is the amount asked for, and equals the debt recorded exactly when a loan amount was named or the quote is 0 |
| LendingCorners.NoCollateralQuotedIff | runtime/modules/deposit-loan/src/lib.rs:651-658 | when a collateral-free application is quoted no collateral |
| LendingCorners.BlockFaultsIff | runtime/modules/deposit-loan/src/lib.rs:994-1100 | exactly when a block faults, over the state before it: a loan the scan cannot score, cash plus debt out of range or, while the pool is in use, a multiple of 2^32, or a live loan while no debt is recorded, the price is 0 in 32 bits or its credit overflows |
| LendingCorners.LiquidatedAtOnceIff | runtime/modules/deposit-loan/src/lib.rs:543-626 | a new loan is marked by a scan at its own price exactly when its debt * 10^8 >= (collateral - loan / price) * price * threshold, where the debt of a quoted loan is collateral * price * limit / 10^8 and nothing of its collateral is in use |
| LendingCorners.HighThresholdSparesNewLoans | runtime/modules/deposit-loan/src/lib.rs:909-930 | with limit * (10^8 + threshold) <= threshold * 10^8 no application, named or quoted, is ever marked at its own price |
| LendingCorners.ShippedLimitsLiquidateAtOnce | cli/src/chain_spec.rs:316-317 | with the shipped limit and threshold a loan of 60% of its collateral is admitted and marked at the same price |
| LendingCorners.DrawKeepsLimitIff | runtime/modules/deposit-loan/src/lib.rs:944-976 | a successful draw of any size leaves the LTV, at the full price as the scan takes it, below the limit exactly when (debt + amount) * 10^8 < (available - amount / p) * price * limit, p being the price cut to 32 bits |
| LendingCorners.DustDrawsPassTheLimit | runtime/modules/deposit-loan/src/lib.rs:944-976 | draws below one unit's price leave the available collateral alone, so any number succeeds, and exactly when the LTV at the full price then reaches the limit |
| LendingCorners.AddThenRepayRollsBack | runtime/modules/deposit-loan/src/lib.rs:697-748 | after add_collateral a repayment can fail with the totals raised instead of lowered and every balance as before |
| LendingCorners.LiquidationPaysIff | runtime/modules/deposit-loan/src/lib.rs:774-847 | a liquidation past its checks that does not fault succeeds exactly when there is no surplus or the collection account, with the debt just paid in, covers penalty and rest, whichever of the accounts coincide |
| LendingCorners.FailedLiquidationMovesMoney | runtime/modules/deposit-loan/src/lib.rs:795-848 | otherwise the loan and every table stay, and every account's loan and collateral balance afterwards is stated, whichever accounts coincide: either the debt stays collected and the shop refunds it out of its own balance if that suffices, or the penalty is paid and taken back and the caller gets all of the loan's collateral if the shop holds it |
| LendingEffects.StakeIff | runtime/modules/deposit-loan/src/lib.rs:328-335 | staking succeeds exactly for a positive covered amount of the collection asset, else nothing changes |
| LendingEffects.StakeEffect | runtime/modules/deposit-loan/src/lib.rs:437-482 | the saver pays the pool and gets amount * market / total dtokens, or the amount itself in an empty pool, which with agreeing counters is always the amount |
| LendingEffects.RedeemIff | runtime/modules/deposit-loan/src/lib.rs:348-501 | with agreeing counters redeeming succeeds exactly when the pool holds the amount and the saver owns as much |
| LendingEffects.RedeemPays | runtime/modules/deposit-loan/src/lib.rs:484-541 | whoever the saver is, a redeem pays everything out and the rest back in when the guards hold, otherwise takes the rest in for nothing, or does nothing |
| LendingEffects.ApplyIff | runtime/modules/deposit-loan/src/lib.rs:543-589 | an application succeeds exactly when the pool holds the loan, the cap is not reached, the collateral is at least the minimum and held by the borrower, and a named loan is within the limit; each refusal has its own error, in the order of the checks |
| LendingEffects.ApplyEffect | runtime/modules/deposit-loan/src/lib.rs:584-623 | exactly the pledged collateral goes to the shop and the amount asked for to the borrower; one loan with a new id enters the table and the end of its owner's list, and both totals grow by its debt and collateral |
| LendingEffects.RepayIff | runtime/modules/deposit-loan/src/lib.rs:682-748 | from any consistent state, each verdict of a repayment over the loan, the caller's balance and the shop's |
| LendingEffects.RepayEffect | runtime/modules/deposit-loan/src/lib.rs:707-754 | a repayment that succeeds pays the whole debt in and the whole original collateral back, and takes the loan out of the table, its owner's list and both totals |
| LendingEffects.RefusedRepayEffect | runtime/modules/deposit-loan/src/lib.rs:715-748 | one that rolls back leaves every balance and raises both totals, any other refusal changes nothing |
| LendingEffects.DrawEffect | runtime/modules/deposit-loan/src/lib.rs:944-981 | a draw succeeds exactly for the owner and within the credit, pays nobody, raises debt and TotalLoan and uses amount / price of the available collateral |
| LendingEffects.AddEffect | runtime/modules/deposit-loan/src/lib.rs:875-907 | succeeds exactly for the owner holding the amount of the collection asset, which goes to the shop, while loan and total are credited with collateral |
| LendingEffects.LiquidationPays | runtime/modules/deposit-loan/src/lib.rs:795-830 | a liquidation that succeeds pays the debt from the auction's account and, out of the collection account, liquidationPenalty percent of the surplus to the profit pool and the rest of it to the borrower |
| LendingEffects.LiquidationClears | runtime/modules/deposit-loan/src/lib.rs:849-873 | and takes the loan out of its three tables and changes no total |
| LendingEffects.LiquidationChecks | runtime/modules/deposit-loan/src/lib.rs:768-794 | which check refuses a liquidation before any payout, with nothing changed |
| LendingEffects.StatusAfterScan | runtime/modules/deposit-loan/src/lib.rs:909-1027 | the status of every loan after a scan that does not fault: kept if liquidating before, else Liquidating or Warning with its LTV at the two thresholds, else kept |
| LendingEffects.BlockSetsRate | runtime/modules/deposit-loan/src/lib.rs:1030-1111 | the rate stored by a block is the linear formula over cash and debt before it, and the time is its own |
| LendingEffects.ChargeOneEffect | runtime/modules/deposit-loan/src/lib.rs:1083-1100 | one turn of the interest loop for any interest: the share drawn if within the credit, paid if covered, counted in any case |
| LendingEffects.SmallCallsNeverFault | runtime/modules/deposit-loan/src/lib.rs:436-981 | no call faults while totals, entries and amounts are below 2^48 and prices below 2^32 (redeems: something saved; liquidations: a penalty of at most 100 percent) |
| DepositLoan.Saving.CreateStaking | runtime/modules/deposit-loan/src/lib.rs:437-482 | transfer, minted dtokens and both counters, the new total computed from the market amount |
| DepositLoan.Saving.StakingCall | runtime/modules/deposit-loan/src/lib.rs:328-335 | the two checks of staking, then create_staking |
| DepositLoan.Saving.MakeRedeemAll | runtime/modules/deposit-loan/src/lib.rs:503-541 | the guards make the transfer after the writes infallible; UserDtoken stays |
| DepositLoan.Saving.RedeemCall | runtime/modules/deposit-loan/src/lib.rs:348-501 | redeem all and stake the rest, both results dropped |
| DepositLoan.Saving.GetCollateralLoan | runtime/modules/deposit-loan/src/lib.rs:628-680 | the quote or check, every product within u128 |
| DepositLoan.Saving.ApplyForLoan | runtime/modules/deposit-loan/src/lib.rs:543-626 | the applying meaning, in which an error never follows a write |
| DepositLoan.Saving.OpenLoan | runtime/modules/deposit-loan/src/lib.rs:583-623 | the early cash check makes the second transfer infallible after the first |
| DepositLoan.Saving.RepayForLoan | runtime/modules/deposit-loan/src/lib.rs:682-762 | the repaying meaning, including the state a rollback leaves |
| DepositLoan.Saving.CloseLoan | runtime/modules/deposit-loan/src/lib.rs:715-754 | collateral out and tables updated, or the closure and the debt sent back when the shop is short |
| DepositLoan.Saving.DrawFromLoan | runtime/modules/deposit-loan/src/lib.rs:944-981 | the drawing meaning; no money moves and no subtraction underflows |
| DepositLoan.Saving.AddLoanCollateral | runtime/modules/deposit-loan/src/lib.rs:875-907 | collateral credited, the collection asset moved to the shop |
| DepositLoan.Saving.SettleLiquidation | runtime/modules/deposit-loan/src/lib.rs:795-848 | the payouts and every compensation attempted when one fails |
| DepositLoan.Saving.MarkLoanLiquidated | runtime/modules/deposit-loan/src/lib.rs:768-873 | checks, payouts, then the loan leaves all three tables while both totals stay |
| DepositLoan.Saving.CheckLoanHealth | runtime/modules/deposit-loan/src/lib.rs:909-930 | the health by the two thresholds, the divisor never 0 |
| DepositLoan.Saving.OnEachBlock | runtime/modules/deposit-loan/src/lib.rs:994-1028 | the scan loop in any enumeration order equals rescoring all loans at once |
| DepositLoan.Saving.ChargeInterest | runtime/modules/deposit-loan/src/lib.rs:1083-1100 | the interest loop for any interest, inner failures dropped |
| DepositLoan.Saving.CalculateLoanInterestRate | runtime/modules/deposit-loan/src/lib.rs:1030-1111 | with BonusTime written first the elapsed time is 0, and so is the interest handed to the loop |
| DepositLoan.Saving.OnInitialize | runtime/modules/deposit-loan/src/lib.rs:216-221 | the scan, then the interest calculation |
| BridgeRuns.RunMintsOnce | runtime/modules/bridge/src/lib.rs:114-200 | over every run each tx hash is minted at most once; pending hashes are distinct across accounts, present, in the history and not minted, also after black marks, re-deposits and white marks that fail midway |
| BridgeRuns.RunIssues | runtime/modules/bridge/src/lib.rs:225-244 | over a run of bridge calls the issuance grows by exactly the minted amounts |
| BridgeRuns.BlackKeeps | runtime/modules/bridge/src/lib.rs:171-182 | forgetting an account's pending hashes never forgets a minted one |
| BridgeRuns.ReleaseKeeps | runtime/modules/bridge/src/lib.rs:188-197 | releasing pending deposits one by one, stopping at a failure or not, keeps the invariant |
| BridgeRuns.RunCovers | runtime/modules/bridge/src/lib.rs:131-167 | while the vault is left alone its balance covers all pending withdrawals over every run, so an authorised refund of a pending amount is always paid |
| BridgeRuns.RemoveOneCuts | runtime/modules/bridge/src/lib.rs:274-288 | exactly the first occurrence goes and the order of the rest stays |
| BridgeEffects.DepositIff | runtime/modules/bridge/src/lib.rs:114-128 | a deposit is accepted exactly when its hash is new, the caller is authorised, and it waits for a mark or the ledger mints it |
| BridgeEffects.DepositEffect | runtime/modules/bridge/src/lib.rs:114-128 | an accepted deposit at or above the threshold of an account not marked white is held with nothing minted; any other is minted to its account with nothing held |
| BridgeEffects.RefusedDeposit | runtime/modules/bridge/src/lib.rs:225-244 | a refused one changes nothing, except that a refused mint leaves the hash barred |
| BridgeEffects.ReleaseMints | runtime/modules/bridge/src/lib.rs:188-197 | releasing mints a prefix of the list in order, each once and to its own account: all of it on success, otherwise all before the first the ledger refuses, with the rest put back |
| BridgeEffects.WhiteMarkEffect | runtime/modules/bridge/src/lib.rs:185-200 | an authorised white mark succeeds exactly when every pending deposit of the account is minted; otherwise the rest stays pending and the account unmarked |
| BridgeEffects.BlackMarkEffect | runtime/modules/bridge/src/lib.rs:171-182 | an authorised black mark forgets the account's pending deposits and frees exactly their hashes |
| BridgeEffects.WithdrawEffect | runtime/modules/bridge/src/lib.rs:154-167 | a covered withdrawal pays the vault and is recorded last on the caller's list |
| BridgeEffects.RefundEffect | runtime/modules/bridge/src/lib.rs:131-140 | succeeds exactly for an authorised author, a pending amount and a covering vault, pays the account whose withdrawal it was, and takes one entry off |
| BridgeEffects.FinishEffect | runtime/modules/bridge/src/lib.rs:143-151 | succeeds exactly for an authorised author and a pending amount, takes one entry off and pays nobody |
| BridgeEffects.OutsidersMintNothing | runtime/modules/bridge/src/lib.rs:114-200 | over every run of bridge calls by accounts outside the admin table nothing is minted, held, marked or released, and nobody but the callers loses anything |
| BridgePallet.WithoutFirst | runtime/modules/bridge/src/lib.rs:277-285 | the loop with its found flag drops one occurrence |
| BridgePallet.BridgeCells.DepositCall | runtime/modules/bridge/src/lib.rs:114-128 | refused when seen, held when large and not white, otherwise minted |
| BridgePallet.BridgeCells.SimpleDepositWithEvent | runtime/modules/bridge/src/lib.rs:225-244 | the history entry stays when the mint fails |
| BridgePallet.BridgeCells.MarkBlack | runtime/modules/bridge/src/lib.rs:171-182 | pending deposits dropped, their hashes free again |
| BridgePallet.BridgeCells.MarkWhite | runtime/modules/bridge/src/lib.rs:185-200 | pending deposits minted in order; after a failure the rest is stored and the mark not set |
| BridgePallet.BridgeCells.ReleaseAll | runtime/modules/bridge/src/lib.rs:188-197 | the shrinking slice equals releasing from the front |
| BridgePallet.BridgeCells.RemoveFromPendingWithdraws | runtime/modules/bridge/src/lib.rs:274-288 | the entry goes, or goes back one shorter |
| BridgePallet.BridgeCells.Withdraw | runtime/modules/bridge/src/lib.rs:154-167 | into the vault and onto the account's list |
| BridgePallet.BridgeCells.Refund | runtime/modules/bridge/src/lib.rs:131-140 | back from the vault and off the list, nothing written on an error |
| BridgePallet.BridgeCells.WithdrawFinish | runtime/modules/bridge/src/lib.rs:143-151 | off the list, the vault keeps the money |
| FeeMultiplier.FirstCoversSecond | runtime/src/impls.rs:100-112 | the unchecked subtraction of the two terms is safe; the second term is 0 except at a distance of exactly one |
| FeeMultiplier.RuntimeStep | runtime/src/impls.rs:80-122 | with the runtime's weights a step is 40,000 parts per billion times the distance, stopped at -1 below the target |
| FeeMultiplier.StepIsBounded | runtime/src/impls.rs:80-122 | a block below the target does not raise the multiplier exactly when it started at -1 or above; steps lie between -10,000 and +30,000; never below -1 |
| FeeMultiplier.OverTargetNeverLowers | runtime/src/impls.rs:105-109 | a block at or above any target, however heavy, never lowers it |
| FeeMultiplier.HeavierIsDearerIff | runtime/src/impls.rs:80-122 | from a multiplier of -1 or above a heavier block never gives a lower one; from below -1 it does exactly when the lighter block is below the target, the heavier is not, and its step up ends below -1 |
| FeeMultiplier.DriftIsBounded | runtime/src/impls.rs:80-122 | bounds over any run of blocks |
| FeeMultiplier.EmptyChain | runtime/src/impls.rs:198-227 | n empty blocks give exactly max(-10^9, m - 10,000 n) |
| FeeMultiplier.PinnedSteps | runtime/src/impls.rs:272-388 | every literal step the repository's tests expect: from 0 at four weights, onwards at twice the target, downwards on empty blocks to -10^9, saturated at the top |
| Oracle.OracleCells.StackPrice | runtime/modules/new-oracle/src/lib.rs:191-203 | appends a candidate; no stored list is ever empty |
| Oracle.OracleCells.OnFinalize | runtime/modules/new-oracle/src/lib.rs:98-115 | taking the lists in any order, the loop with its wrapping additions gives every token with candidates the quotient of its sum modulo 2^64; no division by zero |
| Oracle.MeanBetween | runtime/modules/new-oracle/src/lib.rs:101-104 | the true mean lies between any bounds of the candidates |
| Oracle.StoredMeanIsMeanIff | runtime/modules/new-oracle/src/lib.rs:101-104 | the price stored is the mean of the candidates exactly when their sum fits 64 bits |
| Oracle.StoredMeanBounds | runtime/modules/new-oracle/src/lib.rs:101-104 | the price stored is at least lo exactly when the wrapped sum is at least lo for each candidate, never above an upper bound of the candidates, and within their bounds when the sum fits |
| Oracle.BoundedSumsFit | runtime/modules/new-oracle/src/lib.rs:103 | n candidates of at most hi with n * hi < 2^64 have a sum that fits |
| Oracle.AggregationSets | runtime/modules/new-oracle/src/lib.rs:98-115 | exactly the tokens with candidates change, all candidates are used up, and each new price is the mean, below, and above bounds exactly under those conditions |
| Oracle.RunAtMost | runtime/modules/new-oracle/src/lib.rs:98-203 | over every run, wrapped sums included, an upper bound on the first prices and all candidates bounds every price |
| Oracle.AlwaysAtLeastIff | runtime/modules/new-oracle/src/lib.rs:98-203 | over every run, whatever is submitted, no price ever falls below lo exactly when at each aggregation every wrapped sum is at least lo for each of its candidates; with lo = 1, exactly when no price becomes 0 |
| Oracle.RunWithin | runtime/modules/new-oracle/src/lib.rs:98-203 | over every run in which the sums at each aggregation fit 64 bits, bounds on the first prices and all candidates bound every price; with 1 as lower bound prices stay positive |
| Oracle.TwoHalvesMakeZero | runtime/modules/new-oracle/src/lib.rs:98-136 | after two submitted candidates of 2^63 for a token without others the next aggregation makes its price 0, whatever it was |

## Left out

- LendingAudit.ErrLeavesStorageIff: excludes mark_liquidated, whose failing payouts do write; LiquidationPaysIff and FailedLiquidationMovesMoney say when and what.
- LendingAudit.RunSolvent: assumes that the shop does not apply or repay, nobody takes its collateral, add_collateral is not used and no failed liquidation gave collateral away; AddThenRepayRollsBack and FailedLiquidationMovesMoney show the last two break it. RunAccounted and RunConsistent need none of these.
- FeeMultiplier.StepIsBounded: for block weights up to the maximum; above it only OverTargetNeverLowers is stated.
- Faults as outcomes: a call that would fault is outside the model; the predicates say exactly when a loan call faults (LendingEffects.SmallCallsNeverFault bounds them from the other side) except that a price of 0 is excluded altogether. The oracle does not guarantee that: it can store 0 when a sum of candidates wraps, and Oracle.AlwaysAtLeastIff says exactly when it never does.
- Reserve and unreserve lock reasons, and the twox_64 hash: the lock identifier is a parameter assumed injective only where the lock book needs it.
- Administrator setters, the pause switch, the root-only variants of staking and redeem, the create and create_reserved wrappers around create_asset, events other than the bridge's Deposit, weights, origins and storage layout.
- Symbols and token names: the price of the collateral is a parameter of the calls that read it.
- The enumeration order of linked maps: a parameter, any order without repetition.
- The saving rate's product is only ever taken of a zero interest; its division by the deposit cut to 32 bits is kept as a fault.
- btc-bridge, whose logic repeats the bridge; slash, repatriate_reserved, ensure_can_withdraw and extend_lock, which do nothing.
- Oracle fetching, parsing and the offchain worker; everything outside the five modules.
