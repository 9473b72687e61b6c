/** Whole runs of the bridge: no hash is minted twice, and the vault covers what it owes. */
module BridgeRuns {
  import opened Base
  import opened Sums
  import opened Ledger
  import opened Conservation
  import opened BridgeState

  // ---------- each hash once ----------

  ghost predicate MintedOnce(events: seq<Minted>) {
    forall i, j :: 0 <= i < j < |events| ==> events[i].txHash != events[j].txHash
  }

  ghost predicate WasMinted(events: seq<Minted>, hash: TxHash) {
    exists i :: 0 <= i < |events| && events[i].txHash == hash
  }

  /** A pending deposit carries its own account and a hash that is in the history and not minted. */
  ghost predicate Waiting(s: Bridge, account: AccountId, d: Deposit) {
    d.account == account && d.txHash.Some? && d.txHash.value in s.history && !WasMinted(s.events, d.txHash.value)
  }

  ghost predicate AllWaiting(s: Bridge) {
    forall a, i :: a in s.pending && 0 <= i < |s.pending[a]| ==> Waiting(s, a, s.pending[a][i])
  }

  ghost predicate NotWaiting(pending: map<AccountId, seq<Deposit>>, hash: TxHash) {
    forall a, i :: a in pending && 0 <= i < |pending[a]| ==> pending[a][i].txHash != Some(hash)
  }

  ghost predicate PendingDistinct(pending: map<AccountId, seq<Deposit>>) {
    forall a, b, i, j ::
      (a in pending && b in pending && 0 <= i < |pending[a]| && 0 <= j < |pending[b]|
      && pending[a][i].txHash == pending[b][j].txHash) ==> a == b && i == j
  }

  ghost predicate NoDoubleMint(s: Bridge) {
    && MintedOnce(s.events)
    && (forall i :: 0 <= i < |s.events| ==> s.events[i].txHash in s.history)
    && AllWaiting(s)
    && PendingDistinct(s.pending)
  }

  lemma MintedAfter(events: seq<Minted>, e: Minted, hash: TxHash)
    ensures WasMinted(events + [e], hash) <==> WasMinted(events, hash) || e.txHash == hash
  {
    assert (events + [e])[|events|] == e;
    if WasMinted(events, hash) {
      var i :| 0 <= i < |events| && events[i].txHash == hash;
      assert (events + [e])[i].txHash == hash;
    }
  }

  /** Minting a hash that nobody waits for and that was not minted before. */
  lemma SimpleDepositKeeps(c: Setup, s: Bridge, account: AccountId, amount: nat, hash: TxHash)
    requires NoDoubleMint(s) && !WasMinted(s.events, hash)
    requires NotWaiting(s.pending, hash)
    ensures NoDoubleMint(SimpleDeposit(c, s, account, amount, hash).1)
  {
    var (r, n) := SimpleDeposit(c, s, account, amount, hash);
    forall a, i | a in n.pending && 0 <= i < |n.pending[a]|
      ensures Waiting(n, a, n.pending[a][i])
    {
      assert Waiting(s, a, s.pending[a][i]);
      MintedAfter(s.events, Minted(account, amount, hash), s.pending[a][i].txHash.value);
    }
  }

  /** A failed mint keeps the invariant even if the hash is waiting: it only enters the history. */
  lemma SeenKeeps(s: Bridge, hash: TxHash, d: Deposit)
    requires NoDoubleMint(s)
    ensures NoDoubleMint(s.(history := s.history[hash := d]))
  {
    var n := s.(history := s.history[hash := d]);
    forall a, i | a in n.pending && 0 <= i < |n.pending[a]|
      ensures Waiting(n, a, n.pending[a][i])
    {
      assert Waiting(s, a, s.pending[a][i]);
    }
  }

  lemma HoldKeeps(s: Bridge, account: AccountId, amount: nat, hash: TxHash)
    requires NoDoubleMint(s) && hash !in s.history
    ensures NoDoubleMint(Hold(s, account, amount, hash))
  {
    var n := Hold(s, account, amount, hash);
    var held := PendingOf(s.pending, account);
    assert !WasMinted(s.events, hash);
    forall a, i | a in n.pending && 0 <= i < |n.pending[a]|
      ensures Waiting(n, a, n.pending[a][i])
      ensures n.pending[a][i].txHash == Some(hash) <==> a == account && i == |held|
      ensures !(a == account && i == |held|) ==>
                a in s.pending && i < |s.pending[a]| && n.pending[a][i] == s.pending[a][i]
    {
      if !(a == account && i == |held|) { assert Waiting(s, a, s.pending[a][i]); }
    }
  }

  lemma BlackKeeps(c: Setup, s: Bridge, who: AccountId, account: AccountId)
    requires NoDoubleMint(s)
    ensures NoDoubleMint(MarkingBlack(c, s, who, account).1)
  {
    if HasAuth(c, who, MayMark) {
      var n := MarkingBlack(c, s, who, account).1;
      var gone := PendingOf(s.pending, account);
      forall i | 0 <= i < |s.events| ensures s.events[i].txHash in n.history {
        assert WasMinted(s.events, s.events[i].txHash);
        MintedNotPending(s, account, s.events[i].txHash);
      }
      forall a, i | a in n.pending && 0 <= i < |n.pending[a]| ensures Waiting(n, a, n.pending[a][i]) {
        assert Waiting(s, a, s.pending[a][i]);
        OthersKeepTheirHash(s.pending, account, a, i);
      }
    }
  }

  lemma MintedNotPending(s: Bridge, account: AccountId, hash: TxHash)
    requires AllWaiting(s) && WasMinted(s.events, hash)
    ensures hash !in PendingHashes(PendingOf(s.pending, account))
  {
    var list := PendingOf(s.pending, account);
    forall k | 0 <= k < |list| ensures list[k].txHash != Some(hash) {
      assert Waiting(s, account, s.pending[account][k]);
    }
  }

  lemma OthersKeepTheirHash(pending: map<AccountId, seq<Deposit>>, account: AccountId, a: AccountId, i: nat)
    requires PendingDistinct(pending) && a in pending && i < |pending[a]| && a != account && pending[a][i].txHash.Some?
    ensures pending[a][i].txHash.value !in PendingHashes(PendingOf(pending, account))
  {
    var list := PendingOf(pending, account);
    forall k | 0 <= k < |list| ensures list[k].txHash != pending[a][i].txHash {
      assert list[k] == pending[account][k];
    }
  }

  /** The state in which the deposits still to be released are listed as pending. */
  ghost function Listed(s: Bridge, account: AccountId, rest: seq<Deposit>): Bridge {
    s.(pending := s.pending[account := rest])
  }

  lemma ListedTail(s: Bridge, account: AccountId, rest: seq<Deposit>)
    requires rest != [] && NoDoubleMint(Listed(s, account, rest))
    ensures NoDoubleMint(Listed(s, account, rest[1..]))
    ensures rest[0].account == account && rest[0].txHash.Some? && !WasMinted(s.events, rest[0].txHash.value)
    ensures NotWaiting(s.pending[account := rest[1..]], rest[0].txHash.value)
  {
    var m := Listed(s, account, rest);
    var n := Listed(s, account, rest[1..]);
    assert Waiting(m, account, m.pending[account][0]);
    forall a, i | a in n.pending && 0 <= i < |n.pending[a]|
      ensures n.pending[a][i] == m.pending[a][if a == account then i + 1 else i]
      ensures Waiting(n, a, n.pending[a][i])
      ensures n.pending[a][i].txHash != rest[0].txHash
    {
      assert Waiting(m, a, m.pending[a][if a == account then i + 1 else i]);
      assert m.pending[account][0].txHash == rest[0].txHash;
    }
    TailDistinct(s.pending, account, rest);
  }

  lemma TailDistinct(pending: map<AccountId, seq<Deposit>>, account: AccountId, rest: seq<Deposit>)
    requires rest != [] && PendingDistinct(pending[account := rest])
    ensures PendingDistinct(pending[account := rest[1..]])
  {
    var m, n := pending[account := rest], pending[account := rest[1..]];
    forall a, i | a in n && 0 <= i < |n[a]|
      ensures n[a][i] == m[a][if a == account then i + 1 else i]
    {
    }
  }

  /** Releasing deposits one by one, stopping or not, keeps the invariant. */
  lemma {:induction false} ReleaseKeeps(c: Setup, s: Bridge, account: AccountId, rest: seq<Deposit>)
    requires NoDoubleMint(Listed(s, account, rest)) && account !in s.pending
    ensures forall d :: d in rest ==> d.txHash.Some?
    ensures NoDoubleMint(Release(c, s, account, rest).1)
    decreases |rest|
  {
    SomeHashes(s, account, rest);
    if rest == [] {
      Unlisted(s, account, rest);
    } else {
      ListedTail(s, account, rest);
      var d := rest[0];
      var (r, n) := SimpleDeposit(c, s, d.account, d.amount, d.txHash.value);
      var (rt, nt) := SimpleDeposit(c, Listed(s, account, rest[1..]), d.account, d.amount, d.txHash.value);
      assert nt == Listed(n, account, rest[1..]) && rt == r;
      if r.Err? {
        SeenKeeps(Listed(s, account, rest), d.txHash.value, Deposit(d.account, None, d.amount));
        assert Release(c, s, account, rest).1 == Listed(n, account, rest);
      } else {
        SimpleDepositKeeps(c, Listed(s, account, rest[1..]), d.account, d.amount, d.txHash.value);
        ReleaseKeeps(c, n, account, rest[1..]);
      }
    }
  }

  lemma SomeHashes(s: Bridge, account: AccountId, rest: seq<Deposit>)
    requires AllWaiting(Listed(s, account, rest))
    ensures forall d :: d in rest ==> d.txHash.Some?
  {
    var m := Listed(s, account, rest);
    forall i | 0 <= i < |rest| ensures rest[i].txHash.Some? {
      assert Waiting(m, account, m.pending[account][i]);
    }
  }

  lemma Unlisted(s: Bridge, account: AccountId, rest: seq<Deposit>)
    requires NoDoubleMint(Listed(s, account, rest)) && account !in s.pending
    ensures NoDoubleMint(s)
  {
    var m := Listed(s, account, rest);
    forall a, i | a in s.pending && 0 <= i < |s.pending[a]| ensures Waiting(s, a, s.pending[a][i]) {
      assert Waiting(m, a, m.pending[a][i]);
    }
    assert forall a :: a in s.pending ==> m.pending[a] == s.pending[a];
  }

  lemma WhiteKeeps(c: Setup, s: Bridge, who: AccountId, account: AccountId)
    requires NoDoubleMint(s)
    ensures forall d :: d in PendingOf(s.pending, account) ==> d.txHash.Some?
    ensures NoDoubleMint(MarkingWhite(c, s, who, account).1)
  {
    var rest := PendingOf(s.pending, account);
    var bare := s.(pending := s.pending - {account});
    assert NoDoubleMint(Listed(bare, account, rest)) by { Relisted(s, account); }
    ReleaseKeeps(c, bare, account, rest);
    if HasAuth(c, who, MayMark) {
      var n := Release(c, bare, account, rest).1;
      ListIsIrrelevant(n, n.list[account := White]);
    }
  }

  lemma Relisted(s: Bridge, account: AccountId)
    requires NoDoubleMint(s)
    ensures NoDoubleMint(Listed(s.(pending := s.pending - {account}), account, PendingOf(s.pending, account)))
  {
    var m := Listed(s.(pending := s.pending - {account}), account, PendingOf(s.pending, account));
    forall a, i | a in m.pending && 0 <= i < |m.pending[a]|
      ensures a in s.pending && m.pending[a] == s.pending[a] && Waiting(m, a, m.pending[a][i])
    {
      assert Waiting(s, a, s.pending[a][i]);
    }
  }

  lemma ListIsIrrelevant(s: Bridge, list: map<AccountId, BlackOrWhite>)
    requires NoDoubleMint(s)
    ensures NoDoubleMint(s.(list := list))
  {
    var n := s.(list := list);
    forall a, i | a in n.pending && 0 <= i < |n.pending[a]| ensures Waiting(n, a, n.pending[a][i]) {
      assert Waiting(s, a, s.pending[a][i]);
    }
  }

  // ---------- runs ----------

  datatype BridgeOp =
    | DepositOp(who: AccountId, account: AccountId, amount: U128, hash: TxHash)
    | BlackOp(who: AccountId, account: AccountId)
    | WhiteOp(who: AccountId, account: AccountId)
    | WithdrawOp(who: AccountId, amount: U128)
    | RefundOp(author: AccountId, who: AccountId, amount: U128)
    | FinishOp(author: AccountId, who: AccountId, amount: U128)
    | ElsewhereOp(ident: AssetId -> nat, op: LedgerOp)

  ghost function BridgeStep(c: Setup, s: Bridge, op: BridgeOp): (DispatchResult, Bridge)
    requires NoDoubleMint(s)
  {
    match op
    case DepositOp(who, account, amount, hash) => Depositing(c, s, who, account, amount, hash)
    case BlackOp(who, account) => MarkingBlack(c, s, who, account)
    case WhiteOp(who, account) => WhiteKeeps(c, s, who, account); MarkingWhite(c, s, who, account)
    case WithdrawOp(who, amount) => Withdrawing(c, s, who, amount)
    case RefundOp(author, who, amount) => Refunding(c, s, author, who, amount)
    case FinishOp(author, who, amount) => Finishing(c, s, author, who, amount)
    case ElsewhereOp(ident, op) => (Ok, s.(book := LedgerStep(ident, s.book, op)))
  }

  lemma MoneyIsIrrelevant(s: Bridge, n: Bridge)
    requires NoDoubleMint(s)
    requires n.pending == s.pending && n.history == s.history && n.events == s.events
    ensures NoDoubleMint(n)
  {
    forall a, i | a in n.pending && 0 <= i < |n.pending[a]| ensures Waiting(n, a, n.pending[a][i]) {
      assert Waiting(s, a, s.pending[a][i]);
    }
  }

  lemma BridgeStepKeeps(c: Setup, s: Bridge, op: BridgeOp)
    requires NoDoubleMint(s)
    ensures NoDoubleMint(BridgeStep(c, s, op).1)
  {
    match op
    case DepositOp(who, account, amount, hash) =>
      if hash !in s.history {
        NotSeenNotWaiting(s, hash);
        HoldKeeps(s, account, amount, hash);
        SimpleDepositKeeps(c, s, account, amount, hash);
      }
    case BlackOp(who, account) => BlackKeeps(c, s, who, account);
    case WhiteOp(who, account) => WhiteKeeps(c, s, who, account);
    case _ => MoneyIsIrrelevant(s, BridgeStep(c, s, op).1);
  }

  lemma NotSeenNotWaiting(s: Bridge, hash: TxHash)
    requires NoDoubleMint(s) && hash !in s.history
    ensures !WasMinted(s.events, hash)
    ensures NotWaiting(s.pending, hash)
  {
    forall a, i | a in s.pending && 0 <= i < |s.pending[a]| ensures s.pending[a][i].txHash != Some(hash) {
      assert Waiting(s, a, s.pending[a][i]);
    }
  }

  ghost function BridgeRun(c: Setup, s: Bridge, ops: seq<BridgeOp>): Bridge
    requires NoDoubleMint(s)
    decreases |ops|
  {
    if ops == [] then s
    else
      BridgeStepKeeps(c, s, ops[0]);
      BridgeRun(c, BridgeStep(c, s, ops[0]).1, ops[1..])
  }

  /** Over every run, with marks, re-deposits and marks that fail midway: each hash is minted at
      most once, what waits is distinct, unminted and still barred from being submitted again. */
  lemma {:induction false} RunMintsOnce(c: Setup, s: Bridge, ops: seq<BridgeOp>)
    requires NoDoubleMint(s)
    ensures NoDoubleMint(BridgeRun(c, s, ops))
    ensures s.events <= BridgeRun(c, s, ops).events
    decreases |ops|
  {
    if ops != [] {
      BridgeStepKeeps(c, s, ops[0]);
      if !ops[0].ElsewhereOp? { StepIssues(c, s, ops[0]); }
      RunMintsOnce(c, BridgeStep(c, s, ops[0]).1, ops[1..]);
    }
  }

  // ---------- issuance ----------

  function MintedSum(events: seq<Minted>): nat {
    if events == [] then 0 else MintedSum(events[..|events| - 1]) + events[|events| - 1].amount
  }

  /** Minting appends one event, and the issuance grows by its amount. */
  lemma SimpleDepositIssues(c: Setup, s: Bridge, account: AccountId, amount: nat, hash: TxHash)
    ensures IssuedAsMinted(c, s, SimpleDeposit(c, s, account, amount, hash).1)
  {
    var e := Minted(account, amount, hash);
    assert (s.events + [e])[..|s.events|] == s.events;
  }

  lemma {:induction false} ReleaseIssues(c: Setup, s: Bridge, account: AccountId, rest: seq<Deposit>)
    requires forall d :: d in rest ==> d.txHash.Some?
    ensures IssuedAsMinted(c, s, Release(c, s, account, rest).1)
    decreases |rest|
  {
    if rest != [] {
      SimpleDepositIssues(c, s, rest[0].account, rest[0].amount, rest[0].txHash.value);
      var (r, n) := SimpleDeposit(c, s, rest[0].account, rest[0].amount, rest[0].txHash.value);
      if r.Ok? { ReleaseIssues(c, n, account, rest[1..]); }
    }
  }

  ghost predicate IssuedAsMinted(c: Setup, s: Bridge, n: Bridge) {
    && s.events <= n.events
    && Issued(n.book, c.asset) + MintedSum(s.events) == Issued(s.book, c.asset) + MintedSum(n.events)
  }

  lemma MovingMoneyIssuesNothing(c: Setup, s: Bridge, op: BridgeOp)
    requires NoDoubleMint(s) && (op.BlackOp? || op.WithdrawOp? || op.RefundOp? || op.FinishOp?)
    ensures BridgeStep(c, s, op).1.events == s.events && BridgeStep(c, s, op).1.book.issuance == s.book.issuance
  {
  }

  lemma StepIssues(c: Setup, s: Bridge, op: BridgeOp)
    requires NoDoubleMint(s) && !op.ElsewhereOp?
    ensures IssuedAsMinted(c, s, BridgeStep(c, s, op).1)
  {
    match op
    case DepositOp(who, account, amount, hash) => DepositIssues(c, s, who, account, amount, hash);
    case WhiteOp(who, account) =>
      WhiteKeeps(c, s, who, account);
      WhiteIssues(c, s, who, account);
    case _ => MovingMoneyIssuesNothing(c, s, op);
  }

  lemma DepositIssues(c: Setup, s: Bridge, who: AccountId, account: AccountId, amount: nat, hash: TxHash)
    ensures IssuedAsMinted(c, s, Depositing(c, s, who, account, amount, hash).1)
  {
    SimpleDepositIssues(c, s, account, amount, hash);
  }

  lemma WhiteIssues(c: Setup, s: Bridge, who: AccountId, account: AccountId)
    requires forall d :: d in PendingOf(s.pending, account) ==> d.txHash.Some?
    ensures IssuedAsMinted(c, s, MarkingWhite(c, s, who, account).1)
  {
    ReleaseIssues(c, s.(pending := s.pending - {account}), account, PendingOf(s.pending, account));
  }

  /** Over a run of bridge calls the issuance grows by exactly the minted amounts. */
  lemma {:induction false} RunIssues(c: Setup, s: Bridge, ops: seq<BridgeOp>)
    requires NoDoubleMint(s) && forall i :: 0 <= i < |ops| ==> !ops[i].ElsewhereOp?
    ensures Issued(BridgeRun(c, s, ops).book, c.asset) + MintedSum(s.events)
         == Issued(s.book, c.asset) + MintedSum(BridgeRun(c, s, ops).events)
    decreases |ops|
  {
    if ops != [] {
      BridgeStepKeeps(c, s, ops[0]);
      StepIssues(c, s, ops[0]);
      RunIssues(c, BridgeStep(c, s, ops[0]).1, ops[1..]);
    }
  }

  // ---------- the vault ----------

  ghost function Owed(withdraws: map<AccountId, seq<nat>>): map<AccountId, nat> {
    map who | who in withdraws :: SumSeq(withdraws[who])
  }

  ghost predicate VaultCovers(c: Setup, s: Bridge) {
    Free(s.book, c.asset, c.vault) >= Sum(Owed(s.withdraws))
  }

  /** Removing cuts out the first occurrence and keeps the order of the rest. */
  lemma {:induction false} RemoveOneCuts(s: seq<nat>, x: nat) returns (k: nat)
    requires x in s
    ensures k < |s| && s[k] == x && (forall i :: 0 <= i < k ==> s[i] != x)
    ensures RemoveOne(s, x) == s[..k] + s[k + 1..]
    ensures SumSeq(RemoveOne(s, x)) + x == SumSeq(s)
  {
    if s[0] == x {
      k := 0;
    } else {
      var j := RemoveOneCuts(s[1..], x);
      k := j + 1;
      assert s[..k] == [s[0]] + s[1..][..j];
    }
  }

  lemma OwedPut(withdraws: map<AccountId, seq<nat>>, who: AccountId, list: seq<nat>)
    ensures Sum(Owed(withdraws[who := list])) ==
        Sum(Owed(withdraws)) - SumSeq(WithdrawsOf(withdraws, who)) + SumSeq(list)
  {
    assert Owed(withdraws[who := list]) == Owed(withdraws)[who := SumSeq(list)];
    SumUpdate(Owed(withdraws), who, SumSeq(list));
  }

  lemma OwedRemoved(withdraws: map<AccountId, seq<nat>>, who: AccountId, amount: nat)
    requires amount in WithdrawsOf(withdraws, who)
    ensures Sum(Owed(Removed(withdraws, who, amount))) + amount == Sum(Owed(withdraws))
  {
    var k := RemoveOneCuts(withdraws[who], amount);
    if |withdraws[who]| > 1 {
      OwedPut(withdraws, who, RemoveOne(withdraws[who], amount));
    } else {
      assert withdraws[who] == [amount] && SumSeq([amount]) == amount;
      assert Owed(withdraws - {who}) == Owed(withdraws) - {who};
      SumRemove(Owed(withdraws), who);
    }
  }

  /** The vault owner never withdraws, and nobody else takes the asset out of the vault. */
  ghost predicate VaultLeftAlone(c: Setup, op: BridgeOp) {
    match op
    case WithdrawOp(who, _) => who != c.vault
    case ElsewhereOp(_, step) => !Takes(step, c.asset, c.vault)
    case _ => true
  }

  lemma {:induction false} ReleaseOnlyAdds(c: Setup, s: Bridge, account: AccountId, rest: seq<Deposit>, a: AssetId,
      x: AccountId)
    requires forall d :: d in rest ==> d.txHash.Some?
    ensures Release(c, s, account, rest).1.withdraws == s.withdraws
    ensures Free(Release(c, s, account, rest).1.book, a, x) >= Free(s.book, a, x)
    decreases |rest|
  {
    if rest != [] {
      var (r, n) := SimpleDeposit(c, s, rest[0].account, rest[0].amount, rest[0].txHash.value);
      if r.Ok? { ReleaseOnlyAdds(c, n, account, rest[1..], a, x); }
    }
  }

  lemma StepSound(c: Setup, s: Bridge, op: BridgeOp)
    requires NoDoubleMint(s) && Sound(s.book)
    ensures Sound(BridgeStep(c, s, op).1.book)
  {
    match op
    case DepositOp(who, account, amount, hash) => MintSound(s.book, c.asset, c.sudoKey, account, amount);
    case WhiteOp(who, account) =>
      WhiteKeeps(c, s, who, account);
      ReleaseSound(c, s.(pending := s.pending - {account}), account, PendingOf(s.pending, account));
    case WithdrawOp(who, amount) =>
      if Free(s.book, c.asset, who) >= amount { MovedSound(s.book, c.asset, who, c.vault, amount); }
    case RefundOp(author, who, amount) =>
      if Free(s.book, c.asset, c.vault) >= amount { MovedSound(s.book, c.asset, c.vault, who, amount); }
    case ElsewhereOp(ident, op) => LedgerStepSound(ident, s.book, op);
    case _ =>
  }

  lemma {:induction false} ReleaseSound(c: Setup, s: Bridge, account: AccountId, rest: seq<Deposit>)
    requires Sound(s.book) && forall d :: d in rest ==> d.txHash.Some?
    ensures Sound(Release(c, s, account, rest).1.book)
    decreases |rest|
  {
    if rest != [] {
      MintSound(s.book, c.asset, c.sudoKey, rest[0].account, rest[0].amount);
      var (r, n) := SimpleDeposit(c, s, rest[0].account, rest[0].amount, rest[0].txHash.value);
      if r.Ok? { ReleaseSound(c, n, account, rest[1..]); }
    }
  }

  lemma StepCovers(c: Setup, s: Bridge, op: BridgeOp)
    requires NoDoubleMint(s) && Sound(s.book) && VaultCovers(c, s) && VaultLeftAlone(c, op)
    ensures VaultCovers(c, BridgeStep(c, s, op).1)
  {
    match op
    case DepositOp(who, account, amount, hash) => DepositCovers(c, s, who, account, amount, hash);
    case BlackOp(who, account) =>
    case WhiteOp(who, account) =>
      WhiteKeeps(c, s, who, account);
      ReleaseOnlyAdds(c, s.(pending := s.pending - {account}), account, PendingOf(s.pending, account), c.asset,
          c.vault);
    case WithdrawOp(who, amount) => WithdrawCovers(c, s, who, amount);
    case RefundOp(author, who, amount) => RefundCovers(c, s, author, who, amount);
    case FinishOp(author, who, amount) =>
      if amount in WithdrawsOf(s.withdraws, who) { OwedRemoved(s.withdraws, who, amount); }
    case ElsewhereOp(ident, step) => OnlyTakingLowers(ident, s.book, step, c.asset, c.vault);
  }

  lemma DepositCovers(c: Setup, s: Bridge, who: AccountId, account: AccountId, amount: nat, hash: TxHash)
    requires VaultCovers(c, s)
    ensures VaultCovers(c, Depositing(c, s, who, account, amount, hash).1)
  {
  }

  lemma RefundCovers(c: Setup, s: Bridge, author: AccountId, who: AccountId, amount: nat)
    requires VaultCovers(c, s)
    ensures VaultCovers(c, Refunding(c, s, author, who, amount).1)
  {
    if amount in WithdrawsOf(s.withdraws, who) { OwedRemoved(s.withdraws, who, amount); }
  }

  lemma WithdrawCovers(c: Setup, s: Bridge, who: AccountId, amount: nat)
    requires VaultCovers(c, s) && who != c.vault
    ensures VaultCovers(c, Withdrawing(c, s, who, amount).1)
  {
    var list := WithdrawsOf(s.withdraws, who);
    OwedPut(s.withdraws, who, list + [amount]);
    SumSeqConcat(list, [amount]);
    assert SumSeq([amount]) == amount;
  }

  ghost predicate VaultSparedRun(c: Setup, ops: seq<BridgeOp>) {
    forall i :: 0 <= i < |ops| ==> VaultLeftAlone(c, ops[i])
  }

  /** Over every run that leaves the vault alone it covers all pending withdrawals, so a refund
      that finds its amount is always paid. */
  lemma {:induction false} RunCovers(c: Setup, s: Bridge, ops: seq<BridgeOp>)
    requires NoDoubleMint(s) && Sound(s.book) && VaultCovers(c, s) && VaultSparedRun(c, ops)
    ensures VaultCovers(c, BridgeRun(c, s, ops)) && Sound(BridgeRun(c, s, ops).book)
    ensures forall author: AccountId, who: AccountId, amount: nat ::
              HasAuth(c, author, MayRefund) && amount in WithdrawsOf(BridgeRun(c, s, ops).withdraws, who) ==>
              Refunding(c, BridgeRun(c, s, ops), author, who, amount).0.Ok?
    decreases |ops|
  {
    if ops == [] {
      forall author: AccountId, who: AccountId, amount: nat | HasAuth(c, author, MayRefund) &&
          amount in WithdrawsOf(s.withdraws, who)
        ensures Refunding(c, s, author, who, amount).0.Ok?
      {
        OwedRemoved(s.withdraws, who, amount);
      }
    } else {
      BridgeStepKeeps(c, s, ops[0]);
      StepSound(c, s, ops[0]);
      StepCovers(c, s, ops[0]);
      RunCovers(c, BridgeStep(c, s, ops[0]).1, ops[1..]);
    }
  }
}
