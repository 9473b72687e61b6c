/** Supply conservation: for every asset, what accounts hold adds up to what was issued. */
module Conservation {
  import opened Base
  import opened Sums
  import opened Ledger

  ghost function OfAsset(m: BalanceMap, a: AssetId): BalanceMap {
    map k | k in m && k.0 == a :: m[k]
  }

  /** All balances of one asset in one of the two balance maps. */
  ghost function Holdings(m: BalanceMap, a: AssetId): nat {
    Sum(OfAsset(m, a))
  }

  ghost predicate Balanced(b: Book, a: AssetId) {
    Holdings(b.free, a) + Holdings(b.reserved, a) == Issued(b, a)
  }

  /** Every asset is conserved, also the ids not created yet (which then hold nothing);
      every issuance is a u128; only created ids carry permissions. */
  ghost predicate Sound(b: Book) {
    && (forall a: AssetId :: Balanced(b, a))
    && (forall a :: a in b.issuance ==> b.issuance[a] < U128_BOUND && a < b.nextAssetId)
    && (forall a :: a in b.permissions ==> a in b.issuance)
    && b.nextAssetId < U32_BOUND
  }

  lemma HoldingsUpdate(m: BalanceMap, a: AssetId, who: AccountId, v: nat, c: AssetId)
    ensures At(m, (a, who)) <= Holdings(m, a)
    ensures Holdings(m[(a, who) := v], c) ==
            if c == a then Holdings(m, a) - At(m, (a, who)) + v else Holdings(m, c)
  {
    SumUpdate(OfAsset(m, a), (a, who), v);
    if c == a {
      assert OfAsset(m[(a, who) := v], a) == OfAsset(m, a)[(a, who) := v];
    } else {
      assert OfAsset(m[(a, who) := v], c) == OfAsset(m, c);
    }
  }

  /** No two balances of an asset can together exceed a u128. This is what makes the
      unchecked additions of transfer, reserve, unreserve and total_balance safe. */
  lemma BalancesFit(b: Book, a: AssetId, x: AccountId, y: AccountId)
    requires Sound(b)
    ensures Free(b, a, x) + Reserved(b, a, y) <= Issued(b, a) < U128_BOUND
    ensures x != y ==> Free(b, a, x) + Free(b, a, y) <= Issued(b, a)
    ensures x != y ==> Reserved(b, a, x) + Reserved(b, a, y) <= Issued(b, a)
  {
    assert Balanced(b, a);
    HoldingsUpdate(b.free, a, x, 0, a);
    HoldingsUpdate(b.reserved, a, y, 0, a);
    if x != y {
      SumTwo(OfAsset(b.free, a), (a, x), (a, y));
      SumTwo(OfAsset(b.reserved, a), (a, x), (a, y));
    }
  }

  /** An id that was never created is held by nobody. */
  lemma UncreatedIsEmpty(b: Book, a: AssetId, who: AccountId)
    requires Sound(b) && a !in b.issuance
    ensures Free(b, a, who) == 0 && Reserved(b, a, who) == 0
  {
    BalancesFit(b, a, who, who);
  }

  /** A permitted mint is refused for the total before it could be refused for the account. */
  lemma MintNeverOverflowsAccount(b: Book, a: AssetId, to: AccountId, x: nat)
    requires Sound(b) && Issued(b, a) + x < U128_BOUND
    ensures Free(b, a, to) + x < U128_BOUND
  {
    BalancesFit(b, a, to, to);
  }

  lemma MovedBalanced(b: Book, a: AssetId, from: AccountId, to: AccountId, x: nat, c: AssetId)
    requires Balanced(b, c) && Free(b, a, from) >= x
    ensures Balanced(Moved(b, a, from, to, x), c)
  {
    if from != to {
      HoldingsUpdate(b.free, a, from, Free(b, a, from) - x, c);
      HoldingsUpdate(b.free[(a, from) := Free(b, a, from) - x], a, to, Free(b, a, to) + x, c);
    }
  }

  lemma MovedSound(b: Book, a: AssetId, from: AccountId, to: AccountId, x: nat)
    requires Sound(b) && Free(b, a, from) >= x
    ensures Sound(Moved(b, a, from, to, x))
    ensures Moved(b, a, from, to, x).issuance == b.issuance
  {
    var n := Moved(b, a, from, to, x);
    forall c: AssetId ensures Balanced(n, c) {
      MovedBalanced(b, a, from, to, x, c);
    }
  }

  lemma MintSound(b: Book, a: AssetId, who: AccountId, to: AccountId, x: nat)
    requires Sound(b)
    ensures Sound(Mint(b, a, who, to, x).1)
  {
    var n := Mint(b, a, who, to, x).1;
    forall c: AssetId ensures Balanced(n, c) {
      assert Balanced(b, c);
      HoldingsUpdate(b.free, a, to, Free(b, a, to) + x, c);
    }
  }

  lemma BurnSound(b: Book, a: AssetId, who: AccountId, to: AccountId, x: nat)
    requires Sound(b)
    ensures Sound(Burn(b, a, who, to, x).1)
  {
    var n := Burn(b, a, who, to, x).1;
    if n != b {
      forall c: AssetId ensures Balanced(n, c) {
        assert Balanced(b, c);
        HoldingsUpdate(b.free, a, to, Free(b, a, to) - x, c);
      }
    }
  }

  lemma CreateSound(b: Book, r: Option<AssetId>, to: AccountId, issue: U128, p: Permissions)
    requires Sound(b)
    ensures Sound(Create(b, r, to, issue, p).1)
  {
    var n := Create(b, r, to, issue, p).1;
    if n != b {
      var a := if r.Some? then r.value else b.nextAssetId;
      UncreatedIsEmpty(b, a, to);
      forall c: AssetId ensures Balanced(n, c) {
        assert Balanced(b, c);
        HoldingsUpdate(b.free, a, to, issue, c);
      }
    }
  }

  /** Shifting money between free and reserved of one account changes no asset's total. */
  lemma ShiftBalanced(b: Book, n: Book, a: AssetId, who: AccountId, c: AssetId)
    requires Balanced(b, c)
    requires n.issuance == b.issuance
    requires n.free == b.free[(a, who) := Free(n, a, who)]
    requires n.reserved == b.reserved[(a, who) := Reserved(n, a, who)]
    requires Free(n, a, who) + Reserved(n, a, who) == Free(b, a, who) + Reserved(b, a, who)
    ensures Balanced(n, c)
  {
    HoldingsUpdate(b.free, a, who, Free(n, a, who), c);
    HoldingsUpdate(b.reserved, a, who, Reserved(n, a, who), c);
  }

  lemma ReserveSound(ident: AssetId -> nat, b: Book, a: AssetId, who: AccountId, x: nat)
    requires Sound(b)
    ensures Sound(Reserve(ident, b, a, who, x).1)
  {
    var n := Reserve(ident, b, a, who, x).1;
    if Free(b, a, who) >= x {
      forall c: AssetId ensures Balanced(n, c) {
        ShiftBalanced(b, n, a, who, c);
      }
    }
  }

  lemma UnreserveSound(ident: AssetId -> nat, b: Book, a: AssetId, who: AccountId, x: nat, id: Option<nat>)
    requires Sound(b)
    ensures Sound(Unreserve(ident, b, a, who, x, id).1)
  {
    var n := Unreserve(ident, b, a, who, x, id).1;
    if Reserved(b, a, who) >= x && ChosenLock(LocksAt(b, (ident(a), who)), id, x).Success? {
      forall c: AssetId ensures Balanced(n, c) {
        ShiftBalanced(b, n, a, who, c);
      }
    }
  }

  lemma LedgerStepSound(ident: AssetId -> nat, b: Book, op: LedgerOp)
    requires Sound(b)
    ensures Sound(LedgerStep(ident, b, op))
  {
    match op
    case TransferOp(a, from, to, x) => if Free(b, a, from) >= x { MovedSound(b, a, from, to, x); }
    case MintOp(a, who, to, x) => MintSound(b, a, who, to, x);
    case BurnOp(a, who, to, x) => BurnSound(b, a, who, to, x);
    case CreateOp(r, to, x, p) => CreateSound(b, r, to, x, p);
    case PermitOp(a, who, p) =>
      var n := LedgerStep(ident, b, op);
      forall c: AssetId ensures Balanced(n, c) { assert Balanced(b, c); }
    case ReserveOp(a, who, x) => ReserveSound(ident, b, a, who, x);
    case UnreserveOp(a, who, x, id) => UnreserveSound(ident, b, a, who, x, id);
  }

  /** An asset's permissions change only by a call of its update owner, and its issuance only by a
      mint or burn of the owner of that permission; the other way is being created for the first time. */
  lemma PermissionsGuardAsset(ident: AssetId -> nat, b: Book, op: LedgerOp, a: AssetId)
    requires Sound(b)
    ensures PermissionOf(LedgerStep(ident, b, op), a) != PermissionOf(b, a) ==>
              (op.PermitOp? && op.asset == a && HasPermission(b, a, op.who, Updating))
              || (op.CreateOp? && a !in b.issuance)
    ensures Issued(LedgerStep(ident, b, op), a) != Issued(b, a) ==>
              (op.MintOp? && op.asset == a && HasPermission(b, a, op.who, Minting))
              || (op.BurnOp? && op.asset == a && HasPermission(b, a, op.who, Burning))
              || (op.CreateOp? && a !in b.issuance)
  {
    match op
    case CreateOp(r, to, x, p) =>
    case ReserveOp(c, who, x) =>
    case UnreserveOp(c, who, x, id) => UnreserveSparesSupply(ident, b, c, who, x, id);
    case _ =>
  }

  lemma UnreserveSparesSupply(ident: AssetId -> nat, b: Book, c: AssetId, who: AccountId, x: nat, id: Option<nat>)
    ensures var n := Unreserve(ident, b, c, who, x, id).1; n.issuance == b.issuance && n.permissions == b.permissions
  {
  }

  /** Whatever others do, a free balance only falls by a call that takes from it. */
  lemma OnlyTakingLowers(ident: AssetId -> nat, b: Book, op: LedgerOp, a: AssetId, who: AccountId)
    requires Sound(b) && !Takes(op, a, who)
    ensures Free(LedgerStep(ident, b, op), a, who) >= Free(b, a, who)
  {
    match op
    case CreateOp(r, to, x, p) =>
      var id := if r.Some? then r.value else b.nextAssetId;
      if id !in b.issuance { UncreatedIsEmpty(b, id, to); }
    case UnreserveOp(c, w, x, id) => UnreserveOnlyAdds(ident, b, c, w, x, id, a, who);
    case _ =>
  }

  lemma UnreserveOnlyAdds(ident: AssetId -> nat, b: Book, c: AssetId, w: AccountId, x: nat, id: Option<nat>,
      a: AssetId, who: AccountId)
    ensures Free(Unreserve(ident, b, c, w, x, id).1, a, who) >= Free(b, a, who)
  {
  }

  /** Conservation over every run of ledger calls by anybody. */
  lemma {:induction false} LedgerRunSound(ident: AssetId -> nat, b: Book, ops: seq<LedgerOp>)
    requires Sound(b)
    ensures Sound(LedgerRun(ident, b, ops))
    decreases |ops|
  {
    if ops != [] {
      LedgerStepSound(ident, b, ops[0]);
      LedgerRunSound(ident, LedgerStep(ident, b, ops[0]), ops[1..]);
    }
  }

  // ---------- genesis ----------

  ghost function AccountSet(s: seq<AccountId>): set<AccountId> {
    set w | w in s
  }

  /** The endowed balances: every listed asset, every endowed account. */
  ghost function Endowment(assets: seq<AssetId>, endowed: seq<AccountId>, each: nat): BalanceMap {
    if assets == [] then map[]
    else Endowment(assets[..|assets| - 1], endowed, each) + Row(endowed, each, assets[|assets| - 1])
  }

  /** One asset's row of the endowment. */
  ghost function Row(endowed: seq<AccountId>, each: nat, a: AssetId): BalanceMap {
    map w | w in endowed :: (a, w) := each
  }

  lemma {:induction false} EndowmentAt(assets: seq<AssetId>, endowed: seq<AccountId>, each: nat)
    ensures forall k :: k in Endowment(assets, endowed, each) <==> k.0 in assets && k.1 in endowed
    ensures forall k :: k in Endowment(assets, endowed, each) ==> Endowment(assets, endowed, each)[k] == each
  {
    if assets != [] {
      var rest, a := assets[..|assets| - 1], assets[|assets| - 1];
      EndowmentAt(rest, endowed, each);
      assert assets == rest + [a];
    }
  }

  ghost function EndowedBook(assets: seq<AssetId>, endowed: seq<AccountId>, each: nat, nextAssetId: nat): Book {
    Book(map a | a in assets :: each * |endowed|, Endowment(assets, endowed, each), map[], nextAssetId, map[], 1, map[])
  }

  lemma {:induction false} DistinctCount(s: seq<AccountId>)
    ensures |AccountSet(s)| <= |s|
    ensures |AccountSet(s)| == |s| <==> NoDup(s)
  {
    if s != [] {
      var rest := s[..|s| - 1];
      var last := s[|s| - 1];
      DistinctCount(rest);
      assert s == rest + [last];
      assert AccountSet(s) == AccountSet(rest) + {last};
      if last in rest {
        assert AccountSet(s) == AccountSet(rest);
        var i :| 0 <= i < |rest| && rest[i] == last;
        assert s[i] == s[|s| - 1];
      } else if NoDup(rest) {
        forall i, j | 0 <= i < j < |s| ensures s[i] != s[j] {
          if j < |rest| { assert rest[i] != rest[j]; }
        }
      } else {
        var i, j :| 0 <= i < j < |rest| && rest[i] == rest[j];
        assert s[i] == s[j];
      }
    }
  }

  lemma {:induction false} RowSum(endowed: seq<AccountId>, each: nat, a: AssetId)
    ensures Sum(Row(endowed, each, a)) == each * |AccountSet(endowed)|
  {
    if endowed == [] {
      assert Row(endowed, each, a) == map[];
      assert AccountSet(endowed) == {};
    } else {
      var rest := endowed[..|endowed| - 1];
      var w := endowed[|endowed| - 1];
      assert endowed == rest + [w];
      RowSum(rest, each, a);
      RowGrows(rest, w, each, a);
      SumUpdate(Row(rest, each, a), (a, w), each);
      AccountSetGrows(rest, w);
      NextMultiple(each, |AccountSet(rest)|);
    }
  }

  lemma AccountSetGrows(rest: seq<AccountId>, w: AccountId)
    ensures |AccountSet(rest + [w])| == |AccountSet(rest)| + if w in rest then 0 else 1
  {
    assert AccountSet(rest + [w]) == AccountSet(rest) + {w};
    if w in rest {
      assert AccountSet(rest + [w]) == AccountSet(rest);
    }
  }

  lemma NextMultiple(k: nat, n: nat)
    ensures k * (n + 1) == k * n + k
  {
  }

  lemma RowGrows(rest: seq<AccountId>, w: AccountId, each: nat, a: AssetId)
    ensures Row(rest + [w], each, a) == Row(rest, each, a)[(a, w) := each]
  {
    var l, r := Row(rest + [w], each, a), Row(rest, each, a)[(a, w) := each];
    forall k ensures k in l <==> k in r {
      if k in r && k != (a, w) { assert k.1 in rest; }
    }
  }

  lemma EndowmentHoldings(assets: seq<AssetId>, endowed: seq<AccountId>, each: nat, a: AssetId)
    ensures Holdings(Endowment(assets, endowed, each), a) == if a in assets then each * |AccountSet(endowed)| else 0
  {
    var m := OfAsset(Endowment(assets, endowed, each), a);
    EndowmentAt(assets, endowed, each);
    if a in assets {
      RowSum(endowed, each, a);
      assert m == Row(endowed, each, a);
    } else {
      assert m == map[];
    }
  }

  /** The endowed ledger is conserved exactly when no account is endowed twice: the issuance
      counts list entries, the balances count accounts. */
  lemma EndowedBookSoundIff(assets: seq<AssetId>, endowed: seq<AccountId>, each: nat, nextAssetId: U32)
    requires assets != [] && each > 0
    requires each * |endowed| < U128_BOUND
    requires forall a :: a in assets ==> a < nextAssetId
    ensures Sound(EndowedBook(assets, endowed, each, nextAssetId)) <==> NoDup(endowed)
  {
    var b := EndowedBook(assets, endowed, each, nextAssetId);
    DistinctCount(endowed);
    if NoDup(endowed) {
      EndowedBookSound(assets, endowed, each, nextAssetId);
    }
    if Sound(b) {
      assert Balanced(b, assets[0]);
      EndowmentHoldings(assets, endowed, each, assets[0]);
      assert OfAsset(b.reserved, assets[0]) == map[];
      SameFactor(each, |AccountSet(endowed)|, |endowed|);
    }
  }

  lemma EndowedBookSound(assets: seq<AssetId>, endowed: seq<AccountId>, each: nat, nextAssetId: U32)
    requires NoDup(endowed) && each * |endowed| < U128_BOUND
    requires forall a :: a in assets ==> a < nextAssetId
    ensures Sound(EndowedBook(assets, endowed, each, nextAssetId))
  {
    var b := EndowedBook(assets, endowed, each, nextAssetId);
    DistinctCount(endowed);
    forall a: AssetId ensures Balanced(b, a) {
      EndowmentHoldings(assets, endowed, each, a);
      assert OfAsset(b.reserved, a) == map[];
    }
  }

  lemma SameFactor(k: nat, x: nat, y: nat)
    requires k > 0 && k * x == k * y
    ensures x == y
  {
  }
}
