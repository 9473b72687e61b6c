/** When each bridge call succeeds, whom it pays, and what becomes of deposits and withdrawals. */
module BridgeEffects {
  import opened Base
  import opened Ledger
  import opened Payments
  import opened LedgerEffects
  import opened BridgeState
  import opened BridgeRuns

  predicate Authorised(c: Setup, who: AccountId, auth: Auth) {
    who in c.admins && c.admins[who] in {All, auth}
  }

  /** The bridge may mint x: its key owns the permission and the issuance fits. */
  predicate Mintable(c: Setup, b: Book, x: nat) {
    PermissionOf(b, c.asset).mint == Address(c.sudoKey) && Issued(b, c.asset) + x < U128_BOUND
  }

  // ---------- deposits ----------

  /** The verdict on a deposit: fresh, authorised, and, unless it waits for a mark, mintable. */
  lemma DepositIff(c: Setup, s: Bridge, who: AccountId, account: AccountId, amount: nat, hash: TxHash)
    ensures var r, held := Depositing(c, s, who, account, amount, hash).0, WaitsForMark(c, s, account, amount);
            && (r == Err(RepeatedTransaction) <==> hash in s.history)
            && (r == Err(NoAuth) <==> hash !in s.history && !Authorised(c, who, MayDeposit))
            && (r.Ok? <==>
                  hash !in s.history && Authorised(c, who, MayDeposit) && (held || Mintable(c, s.book, amount)))
  {
    MintEffect(s.book, c.asset, c.sudoKey, account, amount);
  }

  /** At or above the threshold, from an account marked black or not at all. */
  predicate WaitsForMark(c: Setup, s: Bridge, account: AccountId, amount: nat) {
    amount >= c.threshold && (account in s.list ==> s.list[account] == Black)
  }

  /** An accepted deposit is either held at the end of the account's pending list, with nothing
      minted, or minted to that account, with nothing held; its hash enters the history. */
  lemma DepositEffect(c: Setup, s: Bridge, who: AccountId, account: AccountId, amount: nat, hash: TxHash)
    requires Depositing(c, s, who, account, amount, hash).0.Ok?
    ensures var n, d := Depositing(c, s, who, account, amount, hash).1, Deposit(account, Some(hash), amount);
            && n.history == s.history[hash := Deposit(account, None, amount)]
            && n.list == s.list && n.withdraws == s.withdraws
            && (if WaitsForMark(c, s, account, amount) then
                  && n.book == s.book && n.events == s.events
                  && (forall x: AccountId ::
                        PendingOf(n.pending, x) == PendingOf(s.pending, x) + if x == account then [d] else [])
                else
                  && n.pending == s.pending && n.events == s.events + [Minted(account, amount, hash)]
                  && OnlyGains(s.book, n.book, c.asset, account, amount))
  {
    MintEffect(s.book, c.asset, c.sudoKey, account, amount);
  }

  /** A refused deposit changes nothing, except that a mint refused by the ledger leaves the hash
      in the history: it can then never be submitted again. */
  lemma RefusedDeposit(c: Setup, s: Bridge, who: AccountId, account: AccountId, amount: nat, hash: TxHash)
    requires Depositing(c, s, who, account, amount, hash).0.Err?
    ensures var n := Depositing(c, s, who, account, amount, hash).1;
            n == if hash in s.history || !Authorised(c, who, MayDeposit) then s
                 else s.(history := s.history[hash := Deposit(account, None, amount)])
  {
  }

  // ---------- marks ----------

  /** The events minting the deposits of a list, in order. */
  function MintsOf(ds: seq<Deposit>): seq<Minted>
    requires forall d :: d in ds ==> d.txHash.Some?
  {
    if ds == [] then [] else [Minted(ds[0].account, ds[0].amount, ds[0].txHash.value)] + MintsOf(ds[1..])
  }

  function AmountsTo(ds: seq<Deposit>, x: AccountId): nat {
    if ds == [] then 0 else (if ds[0].account == x then ds[0].amount else 0) + AmountsTo(ds[1..], x)
  }

  /** From s to n the deposits of a list, and nothing else, were minted to their accounts. */
  ghost predicate AllMinted(c: Setup, s: Bridge, n: Bridge, ds: seq<Deposit>)
    requires forall d :: d in ds ==> d.txHash.Some?
  {
    && n.events == s.events + MintsOf(ds)
    && (forall a: AssetId, x: AccountId ::
          Free(n.book, a, x) == Free(s.book, a, x) + if a == c.asset then AmountsTo(ds, x) else 0)
    && n.withdraws == s.withdraws && n.book.permissions == s.book.permissions && s.history.Keys <= n.history.Keys
  }

  /** A release mints a list of deposits from the front, each once and to its own account: all of
      it, or all before the first that is refused, and then the rest is put back. */
  lemma {:induction false} ReleaseMints(c: Setup, s: Bridge, account: AccountId, rest: seq<Deposit>) returns (k: nat)
    requires forall d :: d in rest ==> d.txHash.Some?
    ensures var (r, n) := Release(c, s, account, rest);
            && k <= |rest| && AllMinted(c, s, n, rest[..k]) && n.list == s.list
            && (r.Ok? ==> k == |rest| && n.pending == s.pending)
            && (r.Err? ==> k < |rest| && n.pending == s.pending[account := rest[k..]]
                           && !Mintable(c, n.book, rest[k].amount))
    decreases |rest|
  {
    if rest == [] {
      k := 0;
      assert rest[..0] == [];
    } else {
      var d := rest[0];
      var (r, m) := SimpleDeposit(c, s, d.account, d.amount, d.txHash.value);
      MintEffect(s.book, c.asset, c.sudoKey, d.account, d.amount);
      if r.Err? {
        k := 0;
        assert rest[..0] == [] && rest[0..] == rest;
      } else {
        var j := ReleaseMints(c, m, account, rest[1..]);
        k := j + 1;
        assert rest[..k][1..] == rest[1..][..j];
        MintedFirst(c, s, m, Release(c, s, account, rest).1, rest[..k]);
        assert rest[k..] == rest[1..][j..];
      }
    }
  }

  lemma MintedFirst(c: Setup, s: Bridge, m: Bridge, n: Bridge, ds: seq<Deposit>)
    requires ds != [] && (forall d :: d in ds ==> d.txHash.Some?) && AllMinted(c, m, n, ds[1..])
    requires m.events == s.events + [Minted(ds[0].account, ds[0].amount, ds[0].txHash.value)]
    requires OnlyGains(s.book, m.book, c.asset, ds[0].account, ds[0].amount)
    requires m.withdraws == s.withdraws && m.book.permissions == s.book.permissions
    requires s.history.Keys <= m.history.Keys
    ensures AllMinted(c, s, n, ds)
  {
  }

  /** A white mark by an authorised caller succeeds exactly when every pending deposit of the account
      is minted, in order; one refused by the ledger leaves it and those behind it pending, and the
      account unmarked. Nobody else's pending deposits are touched. */
  lemma WhiteMarkEffect(c: Setup, s: Bridge, who: AccountId, account: AccountId) returns (k: nat)
    requires forall d :: d in PendingOf(s.pending, account) ==> d.txHash.Some?
    ensures var (r, n) := MarkingWhite(c, s, who, account);
            var rest := PendingOf(s.pending, account);
            && (r == Err(NoAuth) <==> !Authorised(c, who, MayMark)) && (r == Err(NoAuth) ==> n == s)
            && (Authorised(c, who, MayMark) ==>
                  && k <= |rest| && AllMinted(c, s, n, rest[..k]) && (r.Ok? <==> k == |rest|)
                  && (k < |rest| ==> !Mintable(c, n.book, rest[k].amount))
                  && (forall x: AccountId ::
                        PendingOf(n.pending, x) == if x == account then rest[k..] else PendingOf(s.pending, x))
                  && n.list == if r.Ok? then s.list[account := White] else s.list)
  {
    k := 0;
    if HasAuth(c, who, MayMark) {
      var bare := s.(pending := s.pending - {account});
      k := ReleaseMints(c, bare, account, PendingOf(s.pending, account));
      MintRefusals(c, bare, account, PendingOf(s.pending, account));
    }
  }

  /** A release is never refused for want of authority at the bridge. */
  lemma {:induction false} MintRefusals(c: Setup, s: Bridge, account: AccountId, rest: seq<Deposit>)
    requires forall d :: d in rest ==> d.txHash.Some?
    ensures Release(c, s, account, rest).0 != Err(NoAuth)
    decreases |rest|
  {
    if rest != [] {
      var (r, m) := SimpleDeposit(c, s, rest[0].account, rest[0].amount, rest[0].txHash.value);
      if r.Ok? { MintRefusals(c, m, account, rest[1..]); }
    }
  }

  /** A black mark by an authorised caller forgets the account's pending deposits, frees exactly
      their hashes, and mints nothing. */
  lemma BlackMarkEffect(c: Setup, s: Bridge, who: AccountId, account: AccountId)
    ensures var (r, n) := MarkingBlack(c, s, who, account);
            && (r.Ok? <==> Authorised(c, who, MayMark)) && (r.Err? ==> r == Err(NoAuth) && n == s)
            && (r.Ok? ==>
                  && n == s.(pending := n.pending, history := n.history, list := s.list[account := Black])
                  && (forall x: AccountId ::
                        PendingOf(n.pending, x) == if x == account then [] else PendingOf(s.pending, x))
                  && (forall h: TxHash :: h in n.history <==> h in s.history && !Carries(s, account, h))
                  && (forall h: TxHash :: h in n.history ==> n.history[h] == s.history[h]))
  {
    forall h: TxHash ensures h in PendingHashes(PendingOf(s.pending, account)) <==> Carries(s, account, h) {
      var list := PendingOf(s.pending, account);
      if i :| 0 <= i < |list| && list[i].txHash == Some(h) { assert list[i].txHash.value == h; }
    }
  }

  /** Some pending deposit of the account carries hash h. */
  predicate Carries(s: Bridge, account: AccountId, h: TxHash) {
    var list := PendingOf(s.pending, account);
    exists i :: 0 <= i < |list| && list[i].txHash == Some(h)
  }

  // ---------- withdrawals ----------

  lemma WithdrawEffect(c: Setup, s: Bridge, who: AccountId, amount: nat)
    ensures var (r, n) := Withdrawing(c, s, who, amount);
            && (r.Ok? <==> Free(s.book, c.asset, who) >= amount) && (r.Err? ==> r == Err(InsufficientBalance) && n == s)
            && (r.Ok? ==>
                  && n == s.(book := n.book, withdraws := n.withdraws)
                  && Settles(s.book, n.book, [Payment(c.asset, who, c.vault, amount)])
                  && (forall x: AccountId :: WithdrawsOf(n.withdraws, x) ==
                        WithdrawsOf(s.withdraws, x) + if x == who then [amount] else []))
  {
    TransferEffect(s.book, c.asset, who, c.vault, amount);
  }

  /** The first pending withdrawal of that amount is off who's list, and nothing else changed there. */
  ghost predicate OneWithdrawalLess(s: Bridge, n: Bridge, who: AccountId, amount: nat, k: nat) {
    var list := WithdrawsOf(s.withdraws, who);
    && k < |list| && list[k] == amount && (forall i :: 0 <= i < k ==> list[i] != amount)
    && forall x: AccountId ::
         WithdrawsOf(n.withdraws, x) == if x == who then list[..k] + list[k + 1..] else WithdrawsOf(s.withdraws, x)
  }

  /** A refund pays the account whose withdrawal it was, whoever asked for it. */
  lemma RefundEffect(c: Setup, s: Bridge, author: AccountId, who: AccountId, amount: nat) returns (k: nat)
    ensures var (r, n) := Refunding(c, s, author, who, amount);
            && (r == Err(NoAuth) <==> !Authorised(c, author, MayRefund))
            && (r.Ok? <==> Authorised(c, author, MayRefund) && amount in WithdrawsOf(s.withdraws, who)
                           && Free(s.book, c.asset, c.vault) >= amount)
            && (r.Err? ==> n == s)
            && (r.Ok? ==>
                  && n == s.(book := n.book, withdraws := n.withdraws)
                  && Settles(s.book, n.book, [Payment(c.asset, c.vault, who, amount)])
                  && OneWithdrawalLess(s, n, who, amount, k))
  {
    k := 0;
    TransferEffect(s.book, c.asset, c.vault, who, amount);
    if amount in WithdrawsOf(s.withdraws, who) { k := RemovedOne(s.withdraws, who, amount); }
  }

  /** Finishing a withdrawal pays nobody: the vault keeps the money. */
  lemma FinishEffect(c: Setup, s: Bridge, author: AccountId, who: AccountId, amount: nat) returns (k: nat)
    ensures var (r, n) := Finishing(c, s, author, who, amount);
            && (r == Err(NoAuth) <==> !Authorised(c, author, MayWithdraw))
            && (r.Ok? <==> Authorised(c, author, MayWithdraw) && amount in WithdrawsOf(s.withdraws, who))
            && (r.Err? ==> n == s)
            && (r.Ok? ==> n == s.(withdraws := n.withdraws) && OneWithdrawalLess(s, n, who, amount, k))
  {
    k := 0;
    if amount in WithdrawsOf(s.withdraws, who) { k := RemovedOne(s.withdraws, who, amount); }
  }

  lemma RemovedOne(withdraws: map<AccountId, seq<nat>>, who: AccountId, amount: nat) returns (k: nat)
    requires amount in WithdrawsOf(withdraws, who)
    ensures var list := WithdrawsOf(withdraws, who);
            && k < |list| && list[k] == amount && (forall i :: 0 <= i < k ==> list[i] != amount)
            && forall x: AccountId :: WithdrawsOf(Removed(withdraws, who, amount), x) ==
                 if x == who then list[..k] + list[k + 1..] else WithdrawsOf(withdraws, x)
  {
    k := RemoveOneCuts(withdraws[who], amount);
  }

  // ---------- authority, over whole runs ----------

  /** The accounts a bridge call is made by. */
  function CallerOf(op: BridgeOp): AccountId
    requires !op.ElsewhereOp?
  {
    match op
    case DepositOp(who, _, _, _) => who
    case BlackOp(who, _) => who
    case WhiteOp(who, _) => who
    case WithdrawOp(who, _) => who
    case RefundOp(author, _, _) => author
    case FinishOp(author, _, _) => author
  }

  /** Callers outside the admin table can only withdraw, and move their own money by it. */
  lemma OutsidersOnlyWithdraw(c: Setup, s: Bridge, op: BridgeOp)
    requires NoDoubleMint(s) && !op.ElsewhereOp? && !op.WithdrawOp? && CallerOf(op) !in c.admins
    ensures BridgeStep(c, s, op).0.Err? && BridgeStep(c, s, op).1 == s
  {
  }

  /** Over any run of bridge calls by accounts outside the admin table nothing is minted, held,
      marked or released, and no account but the callers loses anything. */
  lemma {:induction false} OutsidersMintNothing(c: Setup, s: Bridge, ops: seq<BridgeOp>, x: AccountId)
    requires NoDoubleMint(s)
    requires forall i :: 0 <= i < |ops| ==>
               !ops[i].ElsewhereOp? && CallerOf(ops[i]) !in c.admins && CallerOf(ops[i]) != x
    ensures var n := BridgeRun(c, s, ops);
            && n == s.(book := n.book, withdraws := n.withdraws)
            && n.book == s.book.(free := n.book.free)
            && (forall a: AssetId :: Free(n.book, a, x) >= Free(s.book, a, x))
            && WithdrawsOf(n.withdraws, x) == WithdrawsOf(s.withdraws, x)
    decreases |ops|
  {
    if ops != [] {
      var op := ops[0];
      BridgeStepKeeps(c, s, op);
      if op.WithdrawOp? { OwnMoneyOnly(c, s, op.who, op.amount, x); } else { OutsidersOnlyWithdraw(c, s, op); }
      OutsidersMintNothing(c, BridgeStep(c, s, op).1, ops[1..], x);
    }
  }

  lemma OwnMoneyOnly(c: Setup, s: Bridge, who: AccountId, amount: nat, x: AccountId)
    requires x != who
    ensures var n := Withdrawing(c, s, who, amount).1;
            && n == s.(book := n.book, withdraws := n.withdraws)
            && n.book == s.book.(free := n.book.free)
            && (forall a: AssetId :: Free(n.book, a, x) >= Free(s.book, a, x))
            && WithdrawsOf(n.withdraws, x) == WithdrawsOf(s.withdraws, x)
  {
  }
}
