/** The generic-asset pallet: storage cells updated in place, call by call.
    Each call is proved against its meaning in Ledger, with every unchecked addition and
    subtraction shown to stay inside a u128. */
module GenericAsset {
  import opened Base
  import opened Sums
  import opened Ledger
  import opened Conservation

  lemma {:induction false} RemoveFirstLength(s: seq<BalanceLock>, id: nat)
    ensures |RemoveFirst(s, id)| == |s| - if HasLock(s, id) then 1 else 0
    ensures !HasLock(s, id) ==> RemoveFirst(s, id) == s
  {
    if s != [] {
      if s[0].id == id {
        assert HasLock(s, id);
      } else {
        RemoveFirstLength(s[1..], id);
        HasLockTail(s, id);
      }
    }
  }

  /** Looking at one more lock: it is dropped if it is the first match, else kept. */
  lemma {:induction false} RemoveFirstSnoc(s: seq<BalanceLock>, l: BalanceLock, id: nat)
    ensures RemoveFirst(s + [l], id) ==
            if HasLock(s, id) || l.id != id then RemoveFirst(s, id) + [l] else s
  {
    if s == [] {
      assert s + [l] == [l];
    } else {
      assert (s + [l])[1..] == s[1..] + [l];
      if s[0].id == id {
        assert HasLock(s, id);
      } else {
        RemoveFirstSnoc(s[1..], l, id);
        assert HasLock(s, id) <==> HasLock(s[1..], id) by { HasLockTail(s, id); }
      }
    }
  }

  lemma HasLockTail(s: seq<BalanceLock>, id: nat)
    requires s != [] && s[0].id != id
    ensures HasLock(s, id) <==> HasLock(s[1..], id)
  {
    if HasLock(s, id) {
      var i :| 0 <= i < |s| && s[i].id == id;
      assert s[1..][i - 1].id == id;
    }
    if HasLock(s[1..], id) {
      var i :| 0 <= i < |s[1..]| && s[1..][i].id == id;
      assert s[i + 1].id == id;
    }
  }

  /** The filter closure of remove_lock: drops the first match and keeps everything after it. */
  method DropFirstMatch(locks: seq<BalanceLock>, lockId: nat) returns (kept: seq<BalanceLock>)
    ensures kept == RemoveFirst(locks, lockId)
  {
    var first := true;
    kept := [];
    for i := 0 to |locks|
      invariant kept == RemoveFirst(locks[..i], lockId)
      invariant first <==> !HasLock(locks[..i], lockId)
    {
      RemoveFirstSnoc(locks[..i], locks[i], lockId);
      RemoveFirstLength(locks[..i], lockId);
      assert locks[..i + 1] == locks[..i] + [locks[i]];
      assert HasLock(locks[..i + 1], lockId) <==> HasLock(locks[..i], lockId) || locks[i].id == lockId by {
        HasLockSnoc(locks[..i], locks[i], lockId);
      }
      if first && locks[i].id == lockId {
        first := false;
      } else {
        kept := kept + [locks[i]];
      }
    }
    assert locks[..|locks|] == locks;
  }

  lemma HasLockSnoc(s: seq<BalanceLock>, l: BalanceLock, id: nat)
    ensures HasLock(s + [l], id) <==> HasLock(s, id) || l.id == id
  {
    assert (s + [l])[|s|] == l;
    if HasLock(s, id) {
      var i :| 0 <= i < |s| && s[i].id == id;
      assert (s + [l])[i].id == id;
    }
  }

  method LockIdExists(locks: seq<BalanceLock>, lockId: nat) returns (found: bool)
    ensures found <==> HasLock(locks, lockId)
  {
    for i := 0 to |locks|
      invariant forall j :: 0 <= j < i ==> locks[j].id != lockId
    {
      if locks[i].id == lockId { return true; }
    }
    return false;
  }

  method FindLockIdByAmount(locks: seq<BalanceLock>, amount: nat) returns (id: Option<nat>)
    ensures id == FirstWithAmount(locks, amount)
  {
    for i := 0 to |locks|
      invariant FirstWithAmount(locks, amount) == FirstWithAmount(locks[i..], amount)
    {
      if locks[i].amount == amount { return Some(locks[i].id); }
    }
    return None;
  }

  ghost predicate SameBalances(b: Book, n: Book) {
    && (forall a: AssetId, w: AccountId :: Free(n, a, w) == Free(b, a, w))
    && (forall a: AssetId :: Issued(n, a) == Issued(b, a))
  }

  /** Creating an asset with no issuance overwrites a zero with a zero. */
  lemma EmptyAssetKeepsBalances(start: Book, b: Book, a: AssetId, to: AccountId, p: Permissions)
    requires Sound(b) && SameBalances(start, b)
    requires a !in b.issuance && a < b.nextAssetId
    ensures Create(b, Some(a), to, 0, p).0.Ok?
    ensures SameBalances(start, Create(b, Some(a), to, 0, p).1)
  {
    UncreatedIsEmpty(b, a, to);
  }

  ghost function AllOwned(symbols: seq<AssetId>, owner: Permissions): map<AssetId, Permissions> {
    map a | a in symbols :: owner
  }

  lemma AllOwnedGrows(symbols: seq<AssetId>, a: AssetId, owner: Permissions)
    ensures AllOwned(symbols + [a], owner) == AllOwned(symbols, owner)[a := owner]
  {
  }

  class Assets {
    /** The 64-bit hash of an asset id under which its locks are filed. */
    const lockIdentifier: AssetId -> nat
    var totalIssuance: map<AssetId, nat>
    var freeBalance: BalanceMap
    var reservedBalance: BalanceMap
    var nextAssetId: U32
    var permissions: map<AssetId, Permissions>
    var nextLockId: U128
    var locks: map<LockKey, seq<BalanceLock>>

    ghost function View(): Book
      reads this
    {
      Book(totalIssuance, freeBalance, reservedBalance, nextAssetId, permissions, nextLockId, locks)
    }

    ghost predicate Valid()
      reads this
    {
      Sound(View())
    }

    /** Genesis: endow every account with every listed asset, then create the named ids. */
    constructor Genesis(ident: AssetId -> nat, assets: seq<AssetId>, initialBalance: U128, endowed: seq<AccountId>,
                        symbols: seq<AssetId>, next: U32, root: AccountId)
      requires initialBalance * |endowed| < U128_BOUND
      requires NoDup(endowed) && forall a :: a in assets ==> a < next
      requires NoDup(symbols) && forall a :: a in symbols ==> a < next && a !in assets
      ensures Valid() && lockIdentifier == ident
      ensures forall a: AssetId, w: AccountId :: Free(View(), a, w) == if a in assets && w in endowed
          then initialBalance else 0
      ensures forall a: AssetId :: Issued(View(), a) == if a in assets then initialBalance * |endowed| else 0
      ensures permissions == AllOwned(symbols, Permissions(Address(root), Address(root), Address(root)))
      ensures nextAssetId == next && nextLockId == 1 && locks == map[] && reservedBalance == map[]
    {
      lockIdentifier := ident;
      var issuance: U128 := initialBalance * |endowed|;
      totalIssuance := map a | a in assets :: issuance;
      freeBalance := map[];
      reservedBalance := map[];
      nextAssetId := next;
      permissions := map[];
      nextLockId := 1;
      locks := map[];
      new;
      Endow(assets, initialBalance, endowed);
      EndowedBookSound(assets, endowed, initialBalance, next);
      EndowmentAt(assets, endowed, initialBalance);
      assert View() == EndowedBook(assets, endowed, initialBalance, next);
      CreateSymbols(symbols, root);
    }

    method Endow(assets: seq<AssetId>, initialBalance: U128, endowed: seq<AccountId>)
      requires freeBalance == map[]
      modifies this`freeBalance
      ensures freeBalance == Endowment(assets, endowed, initialBalance)
    {
      for i := 0 to |assets|
        invariant freeBalance == Endowment(assets[..i], endowed, initialBalance)
      {
        EndowWith(assets[i], initialBalance, endowed);
        assert assets[..i + 1] == assets[..i] + [assets[i]];
      }
      assert assets[..|assets|] == assets;
    }

    method EndowWith(a: AssetId, initialBalance: U128, endowed: seq<AccountId>)
      modifies this`freeBalance
      ensures freeBalance == old(freeBalance) + Row(endowed, initialBalance, a)
    {
      assert freeBalance + Row(endowed[..0], initialBalance, a) == freeBalance;
      for j := 0 to |endowed|
        invariant freeBalance == old(freeBalance) + Row(endowed[..j], initialBalance, a)
      {
        freeBalance := freeBalance[(a, endowed[j]) := initialBalance];
        assert endowed[..j + 1] == endowed[..j] + [endowed[j]];
        RowGrows(endowed[..j], endowed[j], initialBalance, a);
      }
      assert endowed[..|endowed|] == endowed;
    }

    /** Every create_asset(..).unwrap() of the genesis build succeeds. */
    method CreateSymbols(symbols: seq<AssetId>, root: AccountId)
      requires Valid() && permissions == map[]
      requires NoDup(symbols) && forall a :: a in symbols ==> a < nextAssetId && a !in totalIssuance
      modifies this`totalIssuance, this`freeBalance, this`permissions, this`nextAssetId
      ensures Valid() && nextAssetId == old(nextAssetId)
      ensures SameBalances(old(View()), View())
      ensures permissions == AllOwned(symbols, Permissions(Address(root), Address(root), Address(root)))
    {
      var owner := Permissions(Address(root), Address(root), Address(root));
      ghost var before := View();
      for i := 0 to |symbols|
        invariant Valid() && nextAssetId == old(nextAssetId)
        invariant SameBalances(before, View())
        invariant forall k :: i <= k < |symbols| ==> symbols[k] !in totalIssuance
        invariant permissions == AllOwned(symbols[..i], owner)
      {
        var a := symbols[i];
        assert a in symbols;
        EmptyAssetKeepsBalances(before, View(), a, root, owner);
        var created := CreateAsset(Some(a), Some(root), 0, owner);
        assert created.Ok?;
        assert symbols[..i + 1] == symbols[..i] + [a];
        AllOwnedGrows(symbols[..i], a, owner);
      }
      assert symbols[..|symbols|] == symbols;
    }

    /** Only one account can pass, and only for an asset that was created. */
    method CheckPermission(a: AssetId, who: AccountId, what: PermissionType) returns (ok: bool)
      requires Valid()
      ensures ok <==> HasPermission(View(), a, who, what)
      ensures ok ==> a in totalIssuance && forall x: AccountId :: HasPermission(View(), a, x, what) ==> x == who
    {
      var p := if a in permissions then permissions[a] else Permissions(Nobody, Nobody, Nobody);
      match what
      case Burning => ok := p.burn == Address(who);
      case Minting => ok := p.mint == Address(who);
      case Updating => ok := p.update == Address(who);
    }

    method MintFree(a: AssetId, who: AccountId, to: AccountId, amount: U128) returns (r: DispatchResult)
      requires Valid()
      modifies this
      ensures Valid() && (r, View()) == Mint(old(View()), a, who, to, amount)
    {
      ghost var before := View();
      var ok := CheckPermission(a, who, Minting);
      if !ok { return Err(NoMintPermission); }
      BalancesFit(View(), a, to, to);
      var originalFree: U128 := At(freeBalance, (a, to));
      var currentIssuance: U128 := At(totalIssuance, a);
      if currentIssuance + amount >= U128_BOUND { return Err(TotalMintingOverflow); }
      MintNeverOverflowsAccount(View(), a, to, amount);
      if originalFree + amount >= U128_BOUND {
        assert false;
        return Err(FreeMintingOverflow);
      }
      totalIssuance := totalIssuance[a := currentIssuance + amount];
      freeBalance := freeBalance[(a, to) := originalFree + amount];
      MintSound(before, a, who, to, amount);
      assert View() == Mint(before, a, who, to, amount).1;
      return Ok;
    }

    method BurnFree(a: AssetId, who: AccountId, to: AccountId, amount: U128) returns (r: DispatchResult)
      requires Valid()
      modifies this
      ensures Valid() && (r, View()) == Burn(old(View()), a, who, to, amount)
    {
      ghost var before := View();
      var ok := CheckPermission(a, who, Burning);
      if !ok { return Err(NoBurnPermission); }
      BalancesFit(View(), a, to, to);
      var originalFree: U128 := At(freeBalance, (a, to));
      var currentIssuance: U128 := At(totalIssuance, a);
      if currentIssuance < amount { return Err(TotalBurningUnderflow); }
      if originalFree < amount { return Err(FreeBurningUnderflow); }
      totalIssuance := totalIssuance[a := currentIssuance - amount];
      freeBalance := freeBalance[(a, to) := originalFree - amount];
      BurnSound(before, a, who, to, amount);
      assert View() == Burn(before, a, who, to, amount).1;
      return Ok;
    }

    /** Account 0 stands for the default account id. */
    method CreateAsset(requested: Option<AssetId>, from: Option<AccountId>, issue: U128, options: Permissions)
      returns (r: DispatchResult)
      requires Valid()
      modifies this`totalIssuance, this`freeBalance, this`permissions, this`nextAssetId
      ensures Valid()
      ensures (r, View()) == Create(old(View()), requested, if from.Some? then from.value else 0, issue, options)
    {
      CreateSound(View(), requested, if from.Some? then from.value else 0, issue, options);
      var id: AssetId;
      match requested {
        case Some(a) =>
          if a in totalIssuance { return Err(IdAlreadyTaken); }
          if a >= nextAssetId { return Err(IdUnavailable); }
          id := a;
        case None =>
          id := nextAssetId;
          if id + 1 >= U32_BOUND { return Err(NoIdAvailable); }
          nextAssetId := id + 1;
      }
      var account := if from.Some? then from.value else 0;
      totalIssuance := totalIssuance[id := issue];
      freeBalance := freeBalance[(id, account) := issue];
      permissions := permissions[id := options];
      return Ok;
    }

    method UpdatePermissionOf(a: AssetId, who: AccountId, p: Permissions) returns (r: DispatchResult)
      requires Valid()
      modifies this
      ensures Valid() && (r, View()) == UpdatePermission(old(View()), a, who, p)
    {
      LedgerStepSound(lockIdentifier, View(), PermitOp(a, who, p));
      var ok := CheckPermission(a, who, Updating);
      if !ok { return Err(NoUpdatePermission); }
      permissions := permissions[a := p];
      return Ok;
    }

    /** Two separate writes, sender first; the second cannot overflow because the supply is conserved. */
    method MakeTransfer(a: AssetId, from: AccountId, to: AccountId, amount: U128) returns (r: DispatchResult)
      requires Valid()
      modifies this
      ensures Valid() && (r, View()) == Transfer(old(View()), a, from, to, amount)
    {
      if At(freeBalance, (a, from)) < amount { return Err(InsufficientBalance); }
      MovedSound(View(), a, from, to, amount);
      BalancesFit(View(), a, from, to);
      if from != to {
        freeBalance := freeBalance[(a, from) := At(freeBalance, (a, from)) - amount];
        freeBalance := freeBalance[(a, to) := At(freeBalance, (a, to)) + amount];
      }
      return Ok;
    }

    /** The transfer extrinsic: a zero amount is refused before anything else. */
    method TransferCall(a: AssetId, from: AccountId, to: AccountId, amount: U128) returns (r: DispatchResult)
      requires Valid()
      modifies this
      ensures Valid()
      ensures (r, View()) == if amount == 0 then (Err(ZeroAmount), old(View()))
          else Transfer(old(View()), a, from, to, amount)
    {
      if amount == 0 { return Err(ZeroAmount); }
      r := MakeTransfer(a, from, to, amount);
    }

    method SetLock(a: AssetId, who: AccountId, amount: U128) returns (lockId: nat)
      requires nextLockId + 1 < U128_BOUND
      modifies this`nextLockId, this`locks
      ensures lockId == old(nextLockId) && nextLockId == old(nextLockId) + 1
      ensures locks == old(locks)[(lockIdentifier(a), who) := LocksAt(old(View()), (lockIdentifier(a), who))
          + [BalanceLock(lockId, a, amount)]]
    {
      lockId := nextLockId;
      nextLockId := nextLockId + 1;
      var key := (lockIdentifier(a), who);
      if key in locks {
        locks := locks[key := locks[key] + [BalanceLock(lockId, a, amount)]];
      } else {
        var only := [BalanceLock(lockId, a, amount)];
        assert [] + only == only;
        locks := locks[key := only];
      }
    }

    method RemoveLock(key: LockKey, lockId: nat)
      modifies this`locks
      ensures locks == if HasLock(LocksAt(old(View()), key), lockId)
                       then old(locks)[key := RemoveFirst(LocksAt(old(View()), key), lockId)] else old(locks)
    {
      var current := if key in locks then locks[key] else [];
      var kept := DropFirstMatch(current, lockId);
      RemoveFirstLength(current, lockId);
      if |current| - |kept| == 1 {
        locks := locks[key := kept];
      }
    }

    method ReserveFunds(a: AssetId, who: AccountId, amount: U128) returns (r: Result<nat>)
      requires Valid() && nextLockId + 1 < U128_BOUND
      modifies this
      ensures Valid() && (r, View()) == Reserve(lockIdentifier, old(View()), a, who, amount)
    {
      ghost var before := View();
      BalancesFit(before, a, who, who);
      var originalReserve: U128 := At(reservedBalance, (a, who));
      var originalFree: U128 := At(freeBalance, (a, who));
      if originalFree < amount { return Failure(InsufficientBalance); }
      reservedBalance := reservedBalance[(a, who) := originalReserve + amount];
      freeBalance := freeBalance[(a, who) := originalFree - amount];
      var lockId := SetLock(a, who, amount);
      ReserveSound(lockIdentifier, before, a, who, amount);
      assert View() == Reserve(lockIdentifier, before, a, who, amount).1;
      return Success(lockId);
    }

    method UnreserveFunds(a: AssetId, who: AccountId, amount: U128, lockId: Option<nat>) returns (r: DispatchResult)
      requires Valid()
      modifies this
      ensures Valid() && (r, View()) == Unreserve(lockIdentifier, old(View()), a, who, amount, lockId)
    {
      ghost var before := View();
      BalancesFit(before, a, who, who);
      if At(reservedBalance, (a, who)) < amount { return Err(InsufficientReservedBalance); }
      var key := (lockIdentifier(a), who);
      var validLockId := ValidLock(if key in locks then locks[key] else [], lockId, amount);
      if validLockId.Failure? { return Err(validLockId.error); }
      ReleaseLock(a, who, amount, validLockId.value);
      UnreserveSound(lockIdentifier, before, a, who, amount, lockId);
      return Ok;
    }

    /** The writing part of unreserve: the lock first, then the two balances. */
    method ReleaseLock(a: AssetId, who: AccountId, amount: U128, id: nat)
      requires Reserved(View(), a, who) >= amount && HasLock(LocksAt(View(), (lockIdentifier(a), who)), id)
      requires Free(View(), a, who) + Reserved(View(), a, who) < U128_BOUND
      modifies this`locks, this`freeBalance, this`reservedBalance
      ensures View() == Released(old(View()), (lockIdentifier(a), who), a, amount, id)
    {
      var reserved: U128 := At(reservedBalance, (a, who));
      RemoveLock((lockIdentifier(a), who), id);
      var originalFree: U128 := At(freeBalance, (a, who));
      freeBalance := freeBalance[(a, who) := originalFree + amount];
      reservedBalance := reservedBalance[(a, who) := reserved - amount];
    }
  }

  /** The lock an unreserve call settles on; one is always there to remove afterwards. */
  method ValidLock(current: seq<BalanceLock>, lockId: Option<nat>, amount: nat) returns (r: Result<nat>)
    ensures r == ChosenLock(current, lockId, amount)
    ensures r.Success? ==> HasLock(current, r.value)
  {
    match lockId {
      case Some(id) =>
        var present := LockIdExists(current, id);
        if !present { return Failure(MissingLock); }
        return Success(id);
      case None =>
        var found := FindLockIdByAmount(current, amount);
        if found.None? { return Failure(NoLockMeetRequirement); }
        FoundExists(current, amount);
        return Success(found.value);
    }
  }

  lemma {:induction false} FoundExists(s: seq<BalanceLock>, x: nat)
    requires FirstWithAmount(s, x).Some?
    ensures HasLock(s, FirstWithAmount(s, x).value)
  {
    if s[0].amount == x {
      assert s[0].id == FirstWithAmount(s, x).value;
    } else {
      FoundExists(s[1..], x);
      var i :| 0 <= i < |s[1..]| && s[1..][i].id == FirstWithAmount(s, x).value;
      assert s[i + 1].id == FirstWithAmount(s, x).value;
    }
  }
}
