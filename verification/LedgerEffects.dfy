/** When each ledger call succeeds, and all it does to every account when it does. An error
    leaves the book as it was. */
module LedgerEffects {
  import opened Base
  import opened Ledger
  import opened Conservation
  import opened LockBook
  import opened Payments

  /** Free balances of one account change by x, and no other free balance. */
  ghost predicate OnlyGains(b: Book, n: Book, a: AssetId, who: AccountId, x: int) {
    forall k: AssetId, y: AccountId :: Free(n, k, y) == Free(b, k, y) + (if k == a then Got(y, who, x) else 0)
  }

  lemma TransferEffect(b: Book, a: AssetId, from: AccountId, to: AccountId, x: nat)
    ensures var (r, n) := Transfer(b, a, from, to, x);
            if Free(b, a, from) >= x then r == Ok && Settles(b, n, [Payment(a, from, to, x)])
            else r == Err(InsufficientBalance) && n == b
  {
    if Free(b, a, from) >= x { SettlesOne(b, Payment(a, from, to, x)); }
  }

  /** A mint by the owner of the permission, while the issuance fits, credits the receiver alone. */
  lemma MintEffect(b: Book, a: AssetId, who: AccountId, to: AccountId, x: nat)
    ensures var (r, n) := Mint(b, a, who, to, x);
            && (r == Err(NoMintPermission) <==> PermissionOf(b, a).mint != Address(who))
            && (r.Ok? <==> PermissionOf(b, a).mint == Address(who) && Issued(b, a) + x < U128_BOUND)
            && (r.Err? ==> n == b)
            && (r.Ok? ==>
                  && OnlyGains(b, n, a, to, x)
                  && (forall k: AssetId :: Issued(n, k) == Issued(b, k) + if k == a then x else 0)
                  && n == b.(free := n.free, issuance := n.issuance))
  {
  }

  /** A burn by the owner of the permission takes from the named account alone, and what that
      account holds is the only other limit: the issuance is never the one that is short. */
  lemma BurnEffect(b: Book, a: AssetId, who: AccountId, to: AccountId, x: nat)
    requires Sound(b)
    ensures var (r, n) := Burn(b, a, who, to, x);
            && (r == Err(NoBurnPermission) <==> PermissionOf(b, a).burn != Address(who))
            && (r.Ok? <==> PermissionOf(b, a).burn == Address(who) && Free(b, a, to) >= x)
            && (r.Err? ==> n == b)
            && (r.Ok? ==>
                  && OnlyGains(b, n, a, to, -(x as int))
                  && (forall k: AssetId :: Issued(n, k) == Issued(b, k) - if k == a then x else 0)
                  && n == b.(free := n.free, issuance := n.issuance))
  {
    BalancesFit(b, a, to, to);
  }

  /** A created id is new, all of it is issued to one account, and no other id or account changes. */
  lemma CreateEffect(b: Book, requested: Option<AssetId>, to: AccountId, issue: nat, p: Permissions)
    requires Sound(b)
    ensures var (r, n) := Create(b, requested, to, issue, p);
            var a := if requested.Some? then requested.value else b.nextAssetId;
            && (r.Ok? <==> a !in b.issuance && if requested.Some? then a < b.nextAssetId else a + 1 < U32_BOUND)
            && (r == Err(IdAlreadyTaken) <==> requested.Some? && a in b.issuance)
            && (r == Err(NoIdAvailable) <==> requested.None? && a + 1 >= U32_BOUND)
            && (r.Err? ==> n == b)
            && (r.Ok? ==>
                  && OnlyGains(b, n, a, to, issue)
                  && n.issuance.Keys == b.issuance.Keys + {a}
                  && (forall k: AssetId :: Issued(n, k) == if k == a then issue else Issued(b, k))
                  && (forall k: AssetId :: PermissionOf(n, k) == if k == a then p else PermissionOf(b, k))
                  && n.nextAssetId == b.nextAssetId + (if requested.Some? then 0 else 1)
                  && n == b.(free := n.free, issuance := n.issuance, permissions := n.permissions,
                             nextAssetId := n.nextAssetId))
  {
    var a := if requested.Some? then requested.value else b.nextAssetId;
    if a !in b.issuance { UncreatedIsEmpty(b, a, to); }
  }

  lemma PermitEffect(b: Book, a: AssetId, who: AccountId, p: Permissions)
    ensures var (r, n) := UpdatePermission(b, a, who, p);
            && (r.Ok? <==> PermissionOf(b, a).update == Address(who)) && (r.Err? ==> n == b)
            && (r.Ok? ==>
                  && n == b.(permissions := n.permissions)
                  && forall k: AssetId :: PermissionOf(n, k) == if k == a then p else PermissionOf(b, k))
  {
  }

  /** A reserve moves x of the account's free balance to its reserved one, under a fresh lock at
      the end of its list. */
  lemma ReserveEffect(ident: AssetId -> nat, b: Book, a: AssetId, who: AccountId, x: nat)
    ensures var (r, n) := Reserve(ident, b, a, who, x);
            && (r.Success? <==> Free(b, a, who) >= x) && (r.Failure? ==> n == b)
            && (r.Success? ==>
                  && r.value == b.nextLockId && n.nextLockId == b.nextLockId + 1
                  && OnlyGains(b, n, a, who, -(x as int))
                  && OnlyReserves(b, n, a, who, x)
                  && (forall key :: LocksAt(n, key) == LocksAt(b, key)
                        + if key == (ident(a), who) then [BalanceLock(r.value, a, x)] else [])
                  && n == b.(free := n.free, reserved := n.reserved, locks := n.locks, nextLockId := n.nextLockId))
  {
  }

  ghost predicate OnlyReserves(b: Book, n: Book, a: AssetId, who: AccountId, x: int) {
    forall k: AssetId, y: AccountId ::
      Reserved(n, k, y) == Reserved(b, k, y) + (if k == a then Got(y, who, x) else 0)
  }

  /** Whether lock l is the one asked for: by its id, or else by its amount. */
  predicate Asked(l: BalanceLock, lockId: Option<nat>, x: nat) {
    match lockId
    case Some(id) => l.id == id
    case None => l.amount == x
  }

  /** An unreserve succeeds exactly when x is reserved and some lock of the account is the one asked
      for, wherever it stands. */
  lemma UnreserveIff(ident: AssetId -> nat, b: Book, a: AssetId, who: AccountId, x: nat, lockId: Option<nat>)
    ensures var r, s := Unreserve(ident, b, a, who, x, lockId).0, LocksAt(b, (ident(a), who));
            && (r == Err(InsufficientReservedBalance) <==> Reserved(b, a, who) < x)
            && (r.Ok? <==> Reserved(b, a, who) >= x && exists i :: 0 <= i < |s| && Asked(s[i], lockId, x))
            && (r.Err? ==> Unreserve(ident, b, a, who, x, lockId).1 == b)
  {
    AmountFoundIff(LocksAt(b, (ident(a), who)), x);
  }

  lemma {:induction false} AmountFoundIff(s: seq<BalanceLock>, x: nat)
    ensures FirstWithAmount(s, x).Some? <==> exists i :: 0 <= i < |s| && s[i].amount == x
  {
    if s != [] {
      AmountFoundIff(s[1..], x);
      if i :| 0 <= i < |s| && s[i].amount == x { assert i > 0 ==> s[1..][i - 1].amount == x; }
      if i :| 0 <= i < |s[1..]| && s[1..][i].amount == x { assert s[i + 1].amount == x; }
    }
  }

  /** It moves x back and takes the first lock asked for off the list, and that one alone. */
  lemma UnreserveEffect(ident: AssetId -> nat, b: Book, a: AssetId, who: AccountId, x: nat, lockId: Option<nat>)
      returns (k: nat)
    requires LockIdsUnique(b) && Unreserve(ident, b, a, who, x, lockId).0.Ok?
    ensures var n, s := Unreserve(ident, b, a, who, x, lockId).1, LocksAt(b, (ident(a), who));
            && k < |s| && Asked(s[k], lockId, x) && (forall i :: 0 <= i < k ==> !Asked(s[i], lockId, x))
            && OnlyGains(b, n, a, who, x)
            && OnlyReserves(b, n, a, who, -(x as int))
            && (forall key ::
                  LocksAt(n, key) == if key == (ident(a), who) then s[..k] + s[k + 1..] else LocksAt(b, key))
            && n == b.(free := n.free, reserved := n.reserved, locks := n.locks)
  {
    var s := LocksAt(b, (ident(a), who));
    UnreserveIff(ident, b, a, who, x, lockId);
    k := FirstAsked(s, lockId, x);
    ListIdsDistinct(b, (ident(a), who));
    RemoveFirstAt(s, s[k].id, k);
  }

  lemma {:induction false} FirstAsked(s: seq<BalanceLock>, lockId: Option<nat>, x: nat) returns (k: nat)
    requires exists i :: 0 <= i < |s| && Asked(s[i], lockId, x)
    ensures k < |s| && Asked(s[k], lockId, x) && (forall i :: 0 <= i < k ==> !Asked(s[i], lockId, x))
    ensures ChosenLock(s, lockId, x) == Success(s[k].id)
  {
    if Asked(s[0], lockId, x) {
      k := 0;
    } else {
      var i :| 0 <= i < |s| && Asked(s[i], lockId, x);
      assert Asked(s[1..][i - 1], lockId, x);
      k := FirstAsked(s[1..], lockId, x);
      k := k + 1;
      assert s[k] == s[1..][k - 1];
    }
  }
}
