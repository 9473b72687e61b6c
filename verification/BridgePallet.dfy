/** The bridge pallet: storage cells updated in place over the asset ledger. */
module BridgePallet {
  import opened Base
  import opened GenericAsset
  import opened BridgeState
  import opened BridgeRuns

  predicate Has(s: seq<nat>, x: nat) {
    x in s
  }

  lemma {:induction false} RemoveOneSnoc(s: seq<nat>, x: nat, y: nat)
    ensures RemoveOne(s + [x], y) == if Has(s, y) || x != y then RemoveOne(s, y) + [x] else s
    ensures !Has(s, y) ==> RemoveOne(s, y) == s
  {
    if s == [] {
      assert s + [x] == [x];
    } else {
      assert (s + [x])[1..] == s[1..] + [x];
      assert Has(s, y) <==> s[0] == y || Has(s[1..], y);
      if s[0] != y { RemoveOneSnoc(s[1..], x, y); }
    }
  }

  /** The rebuild loop of remove_from_pending_withdraws, with its found flag. */
  method WithoutFirst(pendings: seq<nat>, amount: nat) returns (x: seq<nat>)
    ensures x == RemoveOne(pendings, amount)
  {
    x := [];
    var found := false;
    for i := 0 to |pendings|
      invariant x == RemoveOne(pendings[..i], amount)
      invariant found <==> Has(pendings[..i], amount)
    {
      RemoveOneSnoc(pendings[..i], pendings[i], amount);
      assert pendings[..i + 1] == pendings[..i] + [pendings[i]];
      if found || pendings[i] != amount {
        x := x + [pendings[i]];
      } else {
        found := true;
      }
    }
    assert pendings[..|pendings|] == pendings;
  }

  lemma PendingHashesGrow(s: seq<Deposit>, i: nat)
    requires i < |s| && s[i].txHash.Some?
    ensures PendingHashes(s[..i + 1]) == PendingHashes(s[..i]) + {s[i].txHash.value}
  {
    var t := s[..i + 1];
    forall h ensures h in PendingHashes(t) <==> h in PendingHashes(s[..i]) || h == s[i].txHash.value {
      if h in PendingHashes(s[..i]) {
        var k :| 0 <= k < i && s[..i][k].txHash == Some(h);
        assert t[k].txHash == Some(h);
      }
      if h in PendingHashes(t) {
        var k :| 0 <= k < |t| && t[k].txHash == Some(h);
        if k < i { assert s[..i][k].txHash == Some(h); }
      }
      assert t[i] == s[i];
    }
  }

  /** Stored deposits carry a hash to unwrap and a u128 amount. */
  ghost predicate PendingReady(pending: map<AccountId, seq<Deposit>>) {
    forall a :: a in pending ==> forall d :: d in pending[a] ==> d.txHash.Some? && d.amount < U128_BOUND
  }

  class BridgeCells {
    const setup: Setup
    const assets: Assets
    var list: map<AccountId, BlackOrWhite>
    var pendingDepositList: map<AccountId, seq<Deposit>>
    var depositHistory: map<TxHash, Deposit>
    var pendingWithdraws: map<AccountId, seq<nat>>
    /** The Deposit events emitted so far. */
    var events: seq<Minted>

    ghost function View(): Bridge
      reads this, assets
    {
      Bridge(assets.View(), list, pendingDepositList, depositHistory, pendingWithdraws, events)
    }

    ghost predicate Valid()
      reads this, assets
    {
      assets.Valid() && NoDoubleMint(View()) && PendingReady(pendingDepositList)
    }

    constructor (setup: Setup, assets: Assets)
      requires assets.Valid()
      ensures Valid() && this.setup == setup && this.assets == assets
      ensures list == map[] && pendingDepositList == map[] && depositHistory == map[] && pendingWithdraws ==
          map[] && events == []
    {
      this.setup := setup;
      this.assets := assets;
      list, pendingDepositList, depositHistory, pendingWithdraws, events := map[], map[], map[], map[], [];
    }

    method SimpleDepositWithEvent(account: AccountId, amount: U128, hash: TxHash) returns (r: DispatchResult)
      requires assets.Valid()
      modifies this`depositHistory, this`events, assets
      ensures assets.Valid() && (r, View()) == SimpleDeposit(setup, old(View()), account, amount, hash)
    {
      depositHistory := depositHistory[hash := Deposit(account, None, amount)];
      r := assets.MintFree(setup.asset, setup.sudoKey, account, amount);
      if r.Err? { return r; }
      events := events + [Minted(account, amount, hash)];
    }

    method HoldDepositWithEvent(account: AccountId, amount: U128, hash: TxHash)
      modifies this`depositHistory, this`pendingDepositList
      ensures View() == Hold(old(View()), account, amount, hash)
    {
      var dep := Deposit(account, None, amount);
      depositHistory := depositHistory[hash := dep];
      dep := dep.(txHash := Some(hash));
      pendingDepositList := pendingDepositList[account := PendingOf(pendingDepositList, account) + [dep]];
    }

    method DepositCall(who: AccountId, account: AccountId, amount: U128, hash: TxHash) returns (r: DispatchResult)
      requires Valid()
      modifies this`depositHistory, this`pendingDepositList, this`events, assets
      ensures Valid() && (r, View()) == Depositing(setup, old(View()), who, account, amount, hash)
    {
      BridgeStepKeeps(setup, View(), DepositOp(who, account, amount, hash));
      if hash in depositHistory { return Err(RepeatedTransaction); }
      if !HasAuth(setup, who, MayDeposit) { return Err(NoAuth); }
      if amount >= setup.threshold {
        if account !in list || list[account] == Black {
          HoldDepositWithEvent(account, amount, hash);
          return Ok;
        }
      }
      r := SimpleDepositWithEvent(account, amount, hash);
    }

    method MarkBlack(who: AccountId, account: AccountId) returns (r: DispatchResult)
      requires Valid()
      modifies this`pendingDepositList, this`depositHistory, this`list
      ensures Valid() && (r, View()) == MarkingBlack(setup, old(View()), who, account)
    {
      ghost var s := View();
      BlackKeeps(setup, s, who, account);
      if !HasAuth(setup, who, MayMark) { return Err(NoAuth); }
      var pendings := PendingOf(pendingDepositList, account);
      pendingDepositList := pendingDepositList - {account};
      ForgetHashes(pendings);
      list := list[account := Black];
      assert View() == MarkingBlack(setup, s, who, account).1;
      return Ok;
    }

    /** Every pending deposit has a hash to unwrap. */
    method ForgetHashes(pendings: seq<Deposit>)
      requires forall d :: d in pendings ==> d.txHash.Some?
      modifies this`depositHistory
      ensures depositHistory == old(depositHistory) - PendingHashes(pendings)
    {
      for i := 0 to |pendings|
        invariant depositHistory == old(depositHistory) - PendingHashes(pendings[..i])
      {
        assert pendings[i] in pendings;
        PendingHashesGrow(pendings, i);
        depositHistory := depositHistory - {pendings[i].txHash.value};
      }
      assert pendings[..|pendings|] == pendings;
    }

    /** The shrinking slice of mark_white; on a failed mint the rest of it is stored again. */
    method MarkWhite(who: AccountId, account: AccountId) returns (r: DispatchResult)
      requires Valid()
      modifies this`pendingDepositList, this`depositHistory, this`events, this`list, assets
      ensures Valid() && (r, View()) == MarkingWhite(setup, old(View()), who, account)
    {
      ghost var s := View();
      WhiteKeeps(setup, s, who, account);
      if !HasAuth(setup, who, MayMark) { return Err(NoAuth); }
      var pendings := PendingOf(pendingDepositList, account);
      pendingDepositList := pendingDepositList - {account};
      r := ReleaseAll(account, pendings);
      if r.Err? {
        assert View() == MarkingWhite(setup, s, who, account).1;
        return r;
      }
      list := list[account := White];
      assert View() == MarkingWhite(setup, s, who, account).1;
    }

    method ReleaseAll(account: AccountId, all: seq<Deposit>) returns (r: DispatchResult)
      requires assets.Valid()
      requires forall d :: d in all ==> d.txHash.Some? && d.amount < U128_BOUND
      modifies this`pendingDepositList, this`depositHistory, this`events, assets
      ensures assets.Valid() && (r, View()) == Release(setup, old(View()), account, all)
      ensures PendingReady(old(pendingDepositList)) ==> PendingReady(pendingDepositList)
    {
      var pendings := all;
      while |pendings| > 0
        invariant assets.Valid() && forall d :: d in pendings ==> d.txHash.Some? && d.amount < U128_BOUND
        invariant pendingDepositList == old(pendingDepositList)
        invariant Release(setup, View(), account, pendings) == Release(setup, old(View()), account, all)
      {
        var d := pendings[0];
        assert d in pendings && forall e :: e in pendings[1..] ==> e in pendings;
        var minted := SimpleDepositWithEvent(d.account, d.amount, d.txHash.value);
        if minted.Err? {
          pendingDepositList := pendingDepositList[account := pendings];
          return minted;
        }
        pendings := pendings[1..];
      }
      return Ok;
    }

    method RemoveFromPendingWithdraws(who: AccountId, amount: nat)
      modifies this`pendingWithdraws
      ensures pendingWithdraws == Removed(old(pendingWithdraws), who, amount)
    {
      var pendings := WithdrawsOf(pendingWithdraws, who);
      pendingWithdraws := pendingWithdraws - {who};
      if |pendings| > 1 {
        var x := WithoutFirst(pendings, amount);
        pendingWithdraws := pendingWithdraws[who := x];
      }
    }

    method Withdraw(who: AccountId, amount: U128) returns (r: DispatchResult)
      requires Valid()
      modifies this`pendingWithdraws, assets
      ensures Valid() && (r, View()) == Withdrawing(setup, old(View()), who, amount)
    {
      ghost var s := View();
      r := assets.MakeTransfer(setup.asset, who, setup.vault, amount);
      if r.Err? { return r; }
      if who in pendingWithdraws {
        pendingWithdraws := pendingWithdraws[who := pendingWithdraws[who] + [amount]];
      } else {
        assert [] + [amount] == [amount];
        pendingWithdraws := pendingWithdraws[who := [amount]];
      }
      MoneyIsIrrelevant(s, View());
    }

    method Refund(author: AccountId, who: AccountId, amount: U128) returns (r: DispatchResult)
      requires Valid()
      modifies this`pendingWithdraws, assets
      ensures Valid() && (r, View()) == Refunding(setup, old(View()), author, who, amount)
    {
      ghost var s := View();
      if !HasAuth(setup, author, MayRefund) { return Err(NoAuth); }
      if amount !in WithdrawsOf(pendingWithdraws, who) { return Err(PendingWithdrawNotFound); }
      r := assets.MakeTransfer(setup.asset, setup.vault, who, amount);
      if r.Err? { return r; }
      RemoveFromPendingWithdraws(who, amount);
      MoneyIsIrrelevant(s, View());
    }

    method WithdrawFinish(author: AccountId, who: AccountId, amount: U128) returns (r: DispatchResult)
      requires Valid()
      modifies this`pendingWithdraws
      ensures Valid() && (r, View()) == Finishing(setup, old(View()), author, who, amount)
    {
      ghost var s := View();
      if !HasAuth(setup, author, MayWithdraw) { return Err(NoAuth); }
      if amount !in WithdrawsOf(pendingWithdraws, who) { return Err(PendingWithdrawNotFound); }
      RemoveFromPendingWithdraws(who, amount);
      MoneyIsIrrelevant(s, View());
      return Ok;
    }
  }
}
