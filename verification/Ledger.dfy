/** The multi-asset ledger as a value: what each generic-asset call does to the storage
    cells, stated without the order in which the code writes them. */
module Ledger {
  import opened Base
  import opened Sums

  type BalanceMap = map<(AssetId, AccountId), nat>

  datatype Owner = Nobody | Address(account: AccountId)

  datatype Permissions = Permissions(update: Owner, mint: Owner, burn: Owner)

  datatype PermissionType = Burning | Minting | Updating

  datatype BalanceLock = BalanceLock(id: nat, assetId: AssetId, amount: nat)

  /** Locks are filed under a hash of the asset id and the account. */
  type LockKey = (nat, AccountId)

  datatype Book = Book(
    issuance: map<AssetId, nat>,
    free: BalanceMap,
    reserved: BalanceMap,
    nextAssetId: nat,
    permissions: map<AssetId, Permissions>,
    nextLockId: nat,
    locks: map<LockKey, seq<BalanceLock>>)

  function Free(b: Book, a: AssetId, who: AccountId): nat {
    At(b.free, (a, who))
  }

  function Reserved(b: Book, a: AssetId, who: AccountId): nat {
    At(b.reserved, (a, who))
  }

  function Issued(b: Book, a: AssetId): nat {
    At(b.issuance, a)
  }

  function PermissionOf(b: Book, a: AssetId): Permissions {
    if a in b.permissions then b.permissions[a] else Permissions(Nobody, Nobody, Nobody)
  }

  predicate HasPermission(b: Book, a: AssetId, who: AccountId, what: PermissionType) {
    var p := PermissionOf(b, a);
    match what
    case Burning => p.burn == Address(who)
    case Minting => p.mint == Address(who)
    case Updating => p.update == Address(who)
  }

  function LocksAt(b: Book, key: LockKey): seq<BalanceLock> {
    if key in b.locks then b.locks[key] else []
  }

  // ---------- calls that move or create money ----------

  /** The book after x units of asset a went from one account to another. */
  function Moved(b: Book, a: AssetId, from: AccountId, to: AccountId, x: nat): Book
    requires Free(b, a, from) >= x
  {
    if from == to then b
    else b.(free := b.free[(a, from) := Free(b, a, from) - x][(a, to) := Free(b, a, to) + x])
  }

  function Transfer(b: Book, a: AssetId, from: AccountId, to: AccountId, x: nat): (DispatchResult, Book) {
    if Free(b, a, from) < x then (Err(InsufficientBalance), b) else (Ok, Moved(b, a, from, to, x))
  }

  /** Minting, with no branch for an overflowing account: the issuance check rules it out. */
  function Mint(b: Book, a: AssetId, who: AccountId, to: AccountId, x: nat): (DispatchResult, Book) {
    if !HasPermission(b, a, who, Minting) then (Err(NoMintPermission), b)
    else if Issued(b, a) + x >= U128_BOUND then (Err(TotalMintingOverflow), b)
    else (Ok, b.(issuance := b.issuance[a := Issued(b, a) + x], free := b.free[(a, to) := Free(b, a, to) + x]))
  }

  function Burn(b: Book, a: AssetId, who: AccountId, to: AccountId, x: nat): (DispatchResult, Book) {
    if !HasPermission(b, a, who, Burning) then (Err(NoBurnPermission), b)
    else if Issued(b, a) < x then (Err(TotalBurningUnderflow), b)
    else if Free(b, a, to) < x then (Err(FreeBurningUnderflow), b)
    else (Ok, b.(issuance := b.issuance[a := Issued(b, a) - x], free := b.free[(a, to) := Free(b, a, to) - x]))
  }

  /** Creates either a reserved id below the next one, or the next id itself. */
  function Create(b: Book, requested: Option<AssetId>, to: AccountId, issue: nat, p: Permissions)
      : (DispatchResult, Book) {
    if requested.Some? && requested.value in b.issuance then (Err(IdAlreadyTaken), b)
    else if requested.Some? && requested.value >= b.nextAssetId then (Err(IdUnavailable), b)
    else if requested.None? && b.nextAssetId + 1 >= U32_BOUND then (Err(NoIdAvailable), b)
    else
      var a := if requested.Some? then requested.value else b.nextAssetId;
      (Ok, b.(issuance := b.issuance[a := issue],
              free := b.free[(a, to) := issue],
              permissions := b.permissions[a := p],
              nextAssetId := if requested.Some? then b.nextAssetId else a + 1))
  }

  function UpdatePermission(b: Book, a: AssetId, who: AccountId, p: Permissions): (DispatchResult, Book) {
    if HasPermission(b, a, who, Updating) then (Ok, b.(permissions := b.permissions[a := p]))
    else (Err(NoUpdatePermission), b)
  }

  // ---------- reserving ----------

  function RemoveFirst(s: seq<BalanceLock>, id: nat): seq<BalanceLock> {
    if s == [] then [] else if s[0].id == id then s[1..] else [s[0]] + RemoveFirst(s[1..], id)
  }

  predicate HasLock(s: seq<BalanceLock>, id: nat) {
    exists i :: 0 <= i < |s| && s[i].id == id
  }

  function FirstWithAmount(s: seq<BalanceLock>, x: nat): Option<nat> {
    if s == [] then None else if s[0].amount == x then Some(s[0].id) else FirstWithAmount(s[1..], x)
  }

  /** Moves x from free to reserved under a fresh lock. ident is the lock identifier of an asset. */
  function Reserve(ident: AssetId -> nat, b: Book, a: AssetId, who: AccountId, x: nat): (Result<nat>, Book) {
    if Free(b, a, who) < x then (Failure(InsufficientBalance), b)
    else
      var key := (ident(a), who);
      (Success(b.nextLockId),
       b.(free := b.free[(a, who) := Free(b, a, who) - x],
          reserved := b.reserved[(a, who) := Reserved(b, a, who) + x],
          nextLockId := b.nextLockId + 1,
          locks := b.locks[key := LocksAt(b, key) + [BalanceLock(b.nextLockId, a, x)]]))
  }

  /** The lock an unreserve call takes: the one named, or the first of that amount. */
  function ChosenLock(s: seq<BalanceLock>, lockId: Option<nat>, x: nat): Result<nat> {
    match lockId
    case Some(id) => if HasLock(s, id) then Success(id) else Failure(MissingLock)
    case None =>
      match FirstWithAmount(s, x)
      case Some(id) => Success(id)
      case None => Failure(NoLockMeetRequirement)
  }

  /** Lock id taken off the list and x moved back to free. */
  function Released(b: Book, key: LockKey, a: AssetId, x: nat, id: nat): Book
    requires Reserved(b, a, key.1) >= x
  {
    var who := key.1;
    b.(free := b.free[(a, who) := Free(b, a, who) + x],
       reserved := b.reserved[(a, who) := Reserved(b, a, who) - x],
       locks := b.locks[key := RemoveFirst(LocksAt(b, key), id)])
  }

  function Unreserve(ident: AssetId -> nat, b: Book, a: AssetId, who: AccountId, x: nat, lockId: Option<nat>)
    : (DispatchResult, Book)
  {
    var key := (ident(a), who);
    if Reserved(b, a, who) < x then (Err(InsufficientReservedBalance), b)
    else match ChosenLock(LocksAt(b, key), lockId, x)
      case Failure(e) => (Err(e), b)
      case Success(id) => (Ok, Released(b, key, a, x, id))
  }

  // ---------- one step, as seen from outside ----------

  datatype LedgerOp =
    | TransferOp(asset: AssetId, from: AccountId, to: AccountId, amount: U128)
    | MintOp(asset: AssetId, who: AccountId, to: AccountId, amount: U128)
    | BurnOp(asset: AssetId, who: AccountId, to: AccountId, amount: U128)
    | CreateOp(requested: Option<AssetId>, to: AccountId, issue: U128, permissions: Permissions)
    | PermitOp(asset: AssetId, who: AccountId, permissions: Permissions)
    | ReserveOp(asset: AssetId, who: AccountId, amount: U128)
    | UnreserveOp(asset: AssetId, who: AccountId, amount: U128, lockId: Option<nat>)

  /** The calls that lower an account's free balance of an asset. */
  predicate Takes(op: LedgerOp, a: AssetId, who: AccountId) {
    match op
    case TransferOp(c, from, _, _) => c == a && from == who
    case BurnOp(c, _, from, _) => c == a && from == who
    case ReserveOp(c, from, _) => c == a && from == who
    case _ => false
  }

  function LedgerStep(ident: AssetId -> nat, b: Book, op: LedgerOp): Book {
    match op
    case TransferOp(a, from, to, x) => Transfer(b, a, from, to, x).1
    case MintOp(a, who, to, x) => Mint(b, a, who, to, x).1
    case BurnOp(a, who, to, x) => Burn(b, a, who, to, x).1
    case CreateOp(r, to, x, p) => Create(b, r, to, x, p).1
    case PermitOp(a, who, p) => UpdatePermission(b, a, who, p).1
    case ReserveOp(a, who, x) => Reserve(ident, b, a, who, x).1
    case UnreserveOp(a, who, x, id) => Unreserve(ident, b, a, who, x, id).1
  }

  function LedgerRun(ident: AssetId -> nat, b: Book, ops: seq<LedgerOp>): Book
    decreases |ops|
  {
    if ops == [] then b else LedgerRun(ident, LedgerStep(ident, b, ops[0]), ops[1..])
  }
}
