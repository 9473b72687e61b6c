/** The lock book: what an account has reserved of an asset is the sum of its locks. */
module LockBook {
  import opened Base
  import opened Sums
  import opened Ledger

  function Amounts(s: seq<BalanceLock>): (r: seq<nat>) {
    seq(|s|, i requires 0 <= i < |s| => s[i].amount)
  }

  function Locked(s: seq<BalanceLock>): nat {
    SumSeq(Amounts(s))
  }

  ghost predicate Injective(ident: AssetId -> nat) {
    forall a: AssetId, c: AssetId :: ident(a) == ident(c) ==> a == c
  }

  /** Lock ids are below the next id and no two locks anywhere share one. */
  ghost predicate LockIdsUnique(b: Book) {
    && (forall k, i :: k in b.locks && 0 <= i < |b.locks[k]| ==> b.locks[k][i].id < b.nextLockId)
    && (forall k, j, i, h ::
          (k in b.locks && j in b.locks && 0 <= i < |b.locks[k]| && 0 <= h < |b.locks[j]|
          && b.locks[k][i].id == b.locks[j][h].id) ==> k == j && i == h)
  }

  ghost predicate ReservedIsLocked(ident: AssetId -> nat, b: Book) {
    forall a: AssetId, who: AccountId :: Reserved(b, a, who) == Locked(LocksAt(b, (ident(a), who)))
  }

  ghost predicate LocksAgree(ident: AssetId -> nat, b: Book) {
    LockIdsUnique(b) && ReservedIsLocked(ident, b)
  }

  lemma LockedAppend(s: seq<BalanceLock>, l: BalanceLock)
    ensures Locked(s + [l]) == Locked(s) + l.amount
  {
    assert Amounts(s + [l]) == Amounts(s) + [l.amount];
    SumSeqConcat(Amounts(s), [l.amount]);
    assert SumSeq([l.amount]) == l.amount;
  }

  /** Removing by id cuts out the first lock carrying that id and nothing else. */
  lemma {:induction false} RemoveFirstAt(s: seq<BalanceLock>, id: nat, k: nat)
    requires k < |s| && s[k].id == id
    requires forall i :: 0 <= i < k ==> s[i].id != id
    ensures RemoveFirst(s, id) == s[..k] + s[k + 1..]
  {
    if k > 0 {
      RemoveFirstAt(s[1..], id, k - 1);
      assert s[1..][..k - 1] == s[1..k];
      assert s == [s[0]] + s[1..];
      assert s[..k] == [s[0]] + s[1..k];
    }
  }

  lemma CutLocked(s: seq<BalanceLock>, k: nat)
    requires k < |s|
    ensures Locked(s) == Locked(s[..k] + s[k + 1..]) + s[k].amount
  {
    var x := [s[k].amount];
    assert Amounts(s) == Amounts(s[..k]) + x + Amounts(s[k + 1..]);
    SumSeqConcat(Amounts(s[..k]) + x, Amounts(s[k + 1..]));
    SumSeqConcat(Amounts(s[..k]), x);
    assert Amounts(s[..k] + s[k + 1..]) == Amounts(s[..k]) + Amounts(s[k + 1..]);
    SumSeqConcat(Amounts(s[..k]), Amounts(s[k + 1..]));
    assert SumSeq(x) == s[k].amount;
  }

  /** A lock found by amount is the first of that amount. */
  lemma {:induction false} FirstWithAmountIs(s: seq<BalanceLock>, x: nat) returns (k: nat)
    requires FirstWithAmount(s, x).Some?
    ensures k < |s| && s[k].amount == x && FirstWithAmount(s, x) == Some(s[k].id)
    ensures forall i :: 0 <= i < k ==> s[i].amount != x
  {
    if s[0].amount == x {
      k := 0;
    } else {
      k := FirstWithAmountIs(s[1..], x);
      k := k + 1;
    }
  }

  lemma {:induction false} FindsSomeAmount(s: seq<BalanceLock>, x: nat, k: nat)
    requires k < |s| && s[k].amount == x
    ensures FirstWithAmount(s, x).Some?
  {
    if k > 0 { FindsSomeAmount(s[1..], x, k - 1); }
  }

  /** Where in its list a successful unreserve finds its lock. */
  lemma ChosenAt(s: seq<BalanceLock>, lockId: Option<nat>, x: nat) returns (k: nat)
    requires ChosenLock(s, lockId, x).Success?
    ensures k < |s| && s[k].id == ChosenLock(s, lockId, x).value
    ensures lockId.None? ==> s[k].amount == x
  {
    match lockId
    case Some(id) => k :| 0 <= k < |s| && s[k].id == id;
    case None => k := FirstWithAmountIs(s, x);
  }

  lemma FreshLockKeepsIds(b: Book, n: Book, key: LockKey, l: BalanceLock)
    requires LockIdsUnique(b) && l.id == b.nextLockId && n.nextLockId == b.nextLockId + 1
    requires n.locks == b.locks[key := LocksAt(b, key) + [l]]
    ensures LockIdsUnique(n)
  {
    forall j, i | j in n.locks && 0 <= i < |n.locks[j]|
      ensures if j == key && i == |LocksAt(b, key)| then n.locks[j][i] == l
              else j in b.locks && n.locks[j][i] == b.locks[j][i]
    {
    }
  }

  /** If one list and one reserved balance change by the same amount, the book still agrees. */
  lemma OneListChanged(ident: AssetId -> nat, b: Book, n: Book, a: AssetId, who: AccountId)
    requires Injective(ident) && ReservedIsLocked(ident, b)
    requires n.reserved == b.reserved[(a, who) := Reserved(n, a, who)]
    requires n.locks == b.locks[(ident(a), who) := LocksAt(n, (ident(a), who))]
    requires Reserved(n, a, who) == Locked(LocksAt(n, (ident(a), who)))
    ensures ReservedIsLocked(ident, n)
  {
    forall c: AssetId, w: AccountId ensures Reserved(n, c, w) == Locked(LocksAt(n, (ident(c), w))) {
      assert Reserved(b, c, w) == Locked(LocksAt(b, (ident(c), w)));
    }
  }

  lemma ReserveKeepsLocks(ident: AssetId -> nat, b: Book, a: AssetId, who: AccountId, x: nat)
    requires Injective(ident) && LocksAgree(ident, b)
    ensures LocksAgree(ident, Reserve(ident, b, a, who, x).1)
  {
    if Free(b, a, who) >= x {
      var n := Reserve(ident, b, a, who, x).1;
      var key := (ident(a), who);
      var l := BalanceLock(b.nextLockId, a, x);
      assert Reserved(b, a, who) == Locked(LocksAt(b, key));
      LockedAppend(LocksAt(b, key), l);
      OneListChanged(ident, b, n, a, who);
      FreshLockKeepsIds(b, n, key, l);
    }
  }

  /** Cutting one lock out of one list keeps all remaining ids apart. */
  lemma CutKeepsIds(b: Book, n: Book, key: LockKey, k: nat)
    requires LockIdsUnique(b) && key in b.locks && k < |b.locks[key]|
    requires n.nextLockId == b.nextLockId
    requires n.locks == b.locks[key := b.locks[key][..k] + b.locks[key][k + 1..]]
    ensures LockIdsUnique(n)
  {
    forall j, i | j in n.locks && 0 <= i < |n.locks[j]|
      ensures n.locks[j][i] == b.locks[j][if j == key && i >= k then i + 1 else i]
    {
    }
  }

  /** A successful unreserve keeps the lock book exactly when the amount released is the
      amount of the lock it takes. Releasing by amount always does; naming a lock may not. */
  lemma UnreserveKeepsLocksIff(ident: AssetId -> nat, b: Book, a: AssetId, who: AccountId, x: nat,
      lockId: Option<nat>) returns (k: nat)
    requires Injective(ident) && LocksAgree(ident, b)
    requires Unreserve(ident, b, a, who, x, lockId).0.Ok?
    ensures var s := LocksAt(b, (ident(a), who));
            && k < |s| && ChosenLock(s, lockId, x) == Success(s[k].id)
            && RemoveFirst(s, s[k].id) == s[..k] + s[k + 1..]
            && (lockId.None? ==> s[k].amount == x)
            && (LocksAgree(ident, Unreserve(ident, b, a, who, x, lockId).1) <==> s[k].amount == x)
  {
    var n := Unreserve(ident, b, a, who, x, lockId).1;
    var key := (ident(a), who);
    var s := LocksAt(b, key);
    k := ChosenAt(s, lockId, x);
    RemoveFirstAt(s, s[k].id, k);
    CutLocked(s, k);
    CutKeepsIds(b, n, key, k);
    assert Reserved(b, a, who) == Locked(s);
    if s[k].amount == x {
      OneListChanged(ident, b, n, a, who);
    } else {
      assert Reserved(n, a, who) != Locked(LocksAt(n, key));
    }
  }

  /** The releases a careful caller makes: by amount, or of a named lock's own amount. */
  predicate ExactRelease(ident: AssetId -> nat, b: Book, op: LedgerOp) {
    op.UnreserveOp? && op.lockId.Some? ==>
      forall i :: 0 <= i < |LocksAt(b, (ident(op.asset), op.who))| ==>
        LocksAt(b, (ident(op.asset), op.who))[i].id == op.lockId.value ==>
        LocksAt(b, (ident(op.asset), op.who))[i].amount == op.amount
  }

  predicate ExactRun(ident: AssetId -> nat, b: Book, ops: seq<LedgerOp>)
    decreases |ops|
  {
    ops == [] || (ExactRelease(ident, b, ops[0]) && ExactRun(ident, LedgerStep(ident, b, ops[0]), ops[1..]))
  }

  lemma LedgerStepKeepsLocks(ident: AssetId -> nat, b: Book, op: LedgerOp)
    requires Injective(ident) && LocksAgree(ident, b) && ExactRelease(ident, b, op)
    ensures LocksAgree(ident, LedgerStep(ident, b, op))
  {
    match op
    case ReserveOp(a, who, x) => ReserveKeepsLocks(ident, b, a, who, x);
    case UnreserveOp(a, who, x, id) => ExactReleaseKeepsLocks(ident, b, op);
    case _ => OtherCallsKeepLocks(ident, b, op);
  }

  lemma ExactReleaseKeepsLocks(ident: AssetId -> nat, b: Book, op: LedgerOp)
    requires Injective(ident) && LocksAgree(ident, b) && op.UnreserveOp? && ExactRelease(ident, b, op)
    ensures LocksAgree(ident, Unreserve(ident, b, op.asset, op.who, op.amount, op.lockId).1)
  {
    if Unreserve(ident, b, op.asset, op.who, op.amount, op.lockId).0.Ok? {
      var k := UnreserveKeepsLocksIff(ident, b, op.asset, op.who, op.amount, op.lockId);
      var s := LocksAt(b, (ident(op.asset), op.who));
      assert op.lockId.Some? ==> s[k].id == op.lockId.value;
    }
  }

  lemma OtherCallsKeepLocks(ident: AssetId -> nat, b: Book, op: LedgerOp)
    requires LocksAgree(ident, b) && !op.ReserveOp? && !op.UnreserveOp?
    ensures LocksAgree(ident, LedgerStep(ident, b, op))
  {
    OtherCallsSpareLocks(ident, b, op);
    SameLocks(ident, b, LedgerStep(ident, b, op));
  }

  lemma OtherCallsSpareLocks(ident: AssetId -> nat, b: Book, op: LedgerOp)
    requires !op.ReserveOp? && !op.UnreserveOp?
    ensures var n := LedgerStep(ident, b, op);
            n.locks == b.locks && n.reserved == b.reserved && n.nextLockId == b.nextLockId
  {
  }

  lemma SameLocks(ident: AssetId -> nat, b: Book, n: Book)
    requires LocksAgree(ident, b)
    requires n.locks == b.locks && n.reserved == b.reserved && n.nextLockId == b.nextLockId
    ensures LocksAgree(ident, n)
  {
    forall c: AssetId, w: AccountId ensures Reserved(n, c, w) == Locked(LocksAt(n, (ident(c), w))) {
      assert Reserved(b, c, w) == Locked(LocksAt(b, (ident(c), w)));
    }
  }

  /** Over every run of ledger calls with exact releases, reserved balances and locks agree. */
  lemma {:induction false} LedgerRunKeepsLocks(ident: AssetId -> nat, b: Book, ops: seq<LedgerOp>)
    requires Injective(ident) && LocksAgree(ident, b) && ExactRun(ident, b, ops)
    ensures LocksAgree(ident, LedgerRun(ident, b, ops))
    decreases |ops|
  {
    if ops != [] {
      LedgerStepKeepsLocks(ident, b, ops[0]);
      LedgerRunKeepsLocks(ident, LedgerStep(ident, b, ops[0]), ops[1..]);
    }
  }

  /** Releasing the lock a reserve returned puts back every balance and the very list of locks. */
  lemma ReserveThenUnreserveById(ident: AssetId -> nat, b: Book, a: AssetId, who: AccountId, x: nat)
    requires LockIdsUnique(b) && Free(b, a, who) >= x
    ensures var (id, r) := Reserve(ident, b, a, who, x);
            var (res, n) := Unreserve(ident, r, a, who, x, Some(id.value));
            && id.Success? && res.Ok?
            && Free(n, a, who) == Free(b, a, who) && Reserved(n, a, who) == Reserved(b, a, who)
            && (forall key :: LocksAt(n, key) == LocksAt(b, key))
  {
    var r, key := Reserve(ident, b, a, who, x).1, (ident(a), who);
    var before, l := LocksAt(b, key), BalanceLock(b.nextLockId, a, x);
    AppendThenRemoveById(before, l);
    assert LocksAt(r, key) == before + [l];
  }

  lemma AppendThenRemoveById(s: seq<BalanceLock>, l: BalanceLock)
    requires forall i :: 0 <= i < |s| ==> s[i].id != l.id
    ensures HasLock(s + [l], l.id) && RemoveFirst(s + [l], l.id) == s
  {
    var t := s + [l];
    assert t[|s|] == l;
    RemoveFirstAt(t, l.id, |s|);
    assert t[..|s|] + t[|s| + 1..] == s;
  }

  /** Appending a lock of amount x and cutting one of amount x leaves the same amounts. */
  lemma AppendCutAmounts(s: seq<BalanceLock>, l: BalanceLock, k: nat)
    requires k <= |s| && (s + [l])[k].amount == l.amount
    ensures multiset(Amounts((s + [l])[..k] + (s + [l])[k + 1..])) == multiset(Amounts(s))
  {
    var t := s + [l];
    assert Amounts(t) == Amounts(t[..k]) + [l.amount] + Amounts(t[k + 1..]);
    assert Amounts(t) == Amounts(s) + [l.amount];
    assert Amounts(t[..k] + t[k + 1..]) == Amounts(t[..k]) + Amounts(t[k + 1..]);
    var x := multiset{l.amount};
    assert multiset(Amounts(t)) == multiset(Amounts(s)) + x;
    assert multiset(Amounts(t)) == multiset(Amounts(t[..k]) + Amounts(t[k + 1..])) + x;
    assert multiset(Amounts(s)) == multiset(Amounts(t)) - x;
    assert multiset(Amounts(t[..k]) + Amounts(t[k + 1..])) == multiset(Amounts(t)) - x;
  }

  /** Appending a lock and removing the first of its amount leaves the same amounts. */
  lemma AppendThenRemoveByAmount(s: seq<BalanceLock>, l: BalanceLock)
    requires forall i, j :: 0 <= i < j < |s + [l]| ==> (s + [l])[i].id != (s + [l])[j].id
    ensures FirstWithAmount(s + [l], l.amount).Some?
    ensures var id := FirstWithAmount(s + [l], l.amount).value;
            multiset(Amounts(RemoveFirst(s + [l], id))) == multiset(Amounts(s))
  {
    var t := s + [l];
    FindsSomeAmount(t, l.amount, |s|);
    var k := FirstWithAmountIs(t, l.amount);
    RemoveFirstAt(t, t[k].id, k);
    AppendCutAmounts(s, l, k);
  }

  lemma ListIdsDistinct(b: Book, key: LockKey)
    requires LockIdsUnique(b)
    ensures forall i, j :: 0 <= i < j < |LocksAt(b, key)| ==> LocksAt(b, key)[i].id != LocksAt(b, key)[j].id
  {
    if key in b.locks {
      forall i, j | 0 <= i < j < |LocksAt(b, key)| ensures LocksAt(b, key)[i].id != LocksAt(b, key)[j].id {
        assert b.locks[key][i].id != b.locks[key][j].id;
      }
    }
  }

  /** Releasing by amount may take an older lock of the same amount; balances still come
      back, and the amounts left on the list are the same as before. */
  lemma ReserveThenUnreserveByAmount(ident: AssetId -> nat, b: Book, a: AssetId, who: AccountId, x: nat)
    requires Free(b, a, who) >= x && LockIdsUnique(b)
    ensures var r := Reserve(ident, b, a, who, x).1;
            var (res, n) := Unreserve(ident, r, a, who, x, None);
            && res.Ok?
            && Free(n, a, who) == Free(b, a, who) && Reserved(n, a, who) == Reserved(b, a, who)
            && multiset(Amounts(LocksAt(n, (ident(a), who)))) == multiset(Amounts(LocksAt(b, (ident(a), who))))
  {
    var r := Reserve(ident, b, a, who, x).1;
    var key := (ident(a), who);
    var before, l := LocksAt(b, key), BalanceLock(b.nextLockId, a, x);
    FreshLockKeepsIds(b, r, key, l);
    ListIdsDistinct(r, key);
    assert LocksAt(r, key) == before + [l];
    AppendThenRemoveByAmount(before, l);
  }
}
