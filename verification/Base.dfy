/** Names shared by every pallet: bounded integers, results and duplicate-free lists. */
module Base {
  const U32_BOUND: nat := 0x1_0000_0000
  const U64_BOUND: nat := 0x1_0000_0000_0000_0000
  const U128_BOUND: nat := 0x1_0000_0000_0000_0000_0000_0000_0000_0000

  type U32 = x: int | 0 <= x < U32_BOUND
  type U64 = x: int | 0 <= x < U64_BOUND

  /** The runtime's Balance. A value is given this type where the code stores or passes
      a balance, so that every unchecked addition, subtraction and product is shown to fit. */
  type U128 = x: int | 0 <= x < U128_BOUND

  type AccountId = nat
  type AssetId = nat
  type LoanId = nat

  datatype Option<+T> = None | Some(value: T)

  datatype Result<+T> = Success(value: T) | Failure(error: DispatchError)

  /** What a dispatchable returns. Storage is not rolled back when it is an Err. */
  datatype DispatchResult = Ok | Err(error: DispatchError)

  datatype DispatchError =
    | NoIdAvailable | IdAlreadyTaken | IdUnavailable
    | ZeroAmount | InsufficientBalance | InsufficientReservedBalance
    | NoUpdatePermission | NoMintPermission | NoBurnPermission
    | TotalMintingOverflow | FreeMintingOverflow | TotalBurningUnderflow | FreeBurningUnderflow
    | MissingLock | NoLockMeetRequirement
    | WrongAsset | ZeroSaving | NotEnoughToRedeem | RedeemTooMuch
    | SavingBalanceShort | TotalDtokenShort | MarketDtokenShort
    | NotEnoughToLoan | ReachLoanCap | InvalidCollateralLoanAmounts | OverLTVLimit | BelowMinimumCollateral
    | InvalidLoanId | NotLoanOwner | NotEnoughToRepay | ShopCollateralShort | LoanInLiquidation
    | LiquidationAccountOnly | NotInLiquidation | NotEnoughToLiquidate | ShortOfCredit
    | RepeatedTransaction | NoAuth | PendingWithdrawNotFound

  predicate NoDup<T(==)>(s: seq<T>) {
    forall i, j :: 0 <= i < j < |s| ==> s[i] != s[j]
  }

  /** The list without any occurrence of x, order kept. */
  function Without<T(==,!new)>(s: seq<T>, x: T): (r: seq<T>)
    ensures forall y :: y in r <==> y in s && y != x
    ensures NoDup(s) ==> NoDup(r)
    ensures |r| <= |s|
  {
    if s == [] then []
    else
      var rest := Without(s[1..], x);
      assert forall y :: y in s <==> y == s[0] || y in s[1..];
      assert NoDup(s) ==> NoDup(s[1..]) && s[0] !in s[1..];
      if s[0] == x then rest else [s[0]] + rest
  }

  /** A list that enumerates a set: every element once, in some order. */
  ghost predicate Enumerates<T(!new)>(order: seq<T>, s: set<T>) {
    NoDup(order) && forall x :: x in order <==> x in s
  }
}
